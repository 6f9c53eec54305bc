# A verified model of the Bima DNS switcher's decision rules

The Bima DNS switcher (`dns.py`) runs a loop that finds the fastest public
DNS resolver and sets it on the machine's active network interfaces. Each
pass of the loop does the following:

- it checks whether a game is running and pauses if one is;
- it pings every candidate resolver;
- it picks the one with the least latency;
- it records the result on a small web dashboard;
- it sets the winner on every interface, and falls back to a fixed list of
  resolvers when none accepts it.

Almost all of the program is shell-outs, HTTP and UI. This project pulls
out the pure decision and parsing rules inside those steps and models them
in Dafny, as pure functions over explicit inputs. Command output is a
string. The results dict is an insertion-ordered sequence of entries. The
configuration is a record. Every call into the operating system is a
parameter.

The modules follow the program's structure:

| module | what it models |
|---|---|
| `Options` | the `Option` type |
| `Text` | the Python string operations the parsers rely on: `isspace`, `lower`, `in`, `split()`, `strip()`, `splitlines()`, `split(':', 1)`, decimal digits |
| `Settings` | `load_config`: the defaults, the merge of the user's file, and the clamping of `interval` and `threads` |
| `Candidates` | `build_dns_list`, the per-cycle candidate list, and the list-aliasing defect described under Findings |
| `Probe` | `ping_once`'s output parser and timeout, and `test_host_latency`'s median |
| `Selection` | the results dict, `min(results, key=results.get)`, the 100-entry history, and the switch and fallback loops |
| `Games` | `is_game_running` and the cached game check at the top of each pass |
| `Client` | `get_client_info`'s user-agent classification |
| `Interfaces` | `get_interfaces`: the netsh, nmcli and `ip link` line parsers and the choice between them |
| `Worker` | one pass of `worker_main` and a run of passes |

Three behaviours of the code that a reader might not expect, and that the
model follows:

- **Fallback.** The fallback loop's `break` (dns.py:1071, dns.py:1081)
  leaves only the inner loop over interfaces. Every fallback address is
  therefore offered, and the last one accepted becomes current.
- **Failed pings.** When every ping of a resolver fails, `test_host_latency`
  returns the HTTP latency probe's result (dns.py:260-263).
- **Errors in the loop.** An exception escaping the loop body ends the loop
  through the shutdown handler; the loop does not resume.

## Model

| member | source | states |
|---|---|---|
| `Settings.Validate` | dns.py:126-133 | the result has interval ≥ 30 and 1 ≤ threads ≤ 50; an in-range value is kept, an out-of-range one is raised or lowered to the bound; every other key is unchanged |
| `Settings.LoadConfig` | dns.py:117-136 | the loaded configuration is always valid, and a missing or unreadable file gives exactly the defaults |
| `Settings.ValidateIdempotent` | dns.py:126-133 | validation leaves a valid configuration alone, so applying it twice equals applying it once |
| `Settings.LoadKeepsUserValues` | dns.py:117-133 | for each of the sixteen keys, the user's value comes through verbatim when set and the default stays when unset; the only exceptions are an interval below 30, which becomes 30, and a thread count outside 1..50, which is clamped to the nearer bound |
| `Candidates.Dedup` | dns.py:141-143 | `dict.fromkeys` leaves no duplicates and exactly the input's elements |
| `Candidates.DedupOrder` | dns.py:141-143 | the deduplicated list keeps the order of first occurrences |
| `Candidates.BuildLists` | dns.py:141-144 | both lists are duplicate-free; the IPv4 list holds exactly the IPv4 masters and the custom entries without a colon, and the IPv6 list holds exactly the IPv6 masters and the custom entries with one |
| `Candidates.BuildListsSorts` | dns.py:141-144 | each list starts with its deduplicated master list, which is the whole master list in order when that has no duplicates; the IPv4 list has no colon address; every custom entry lands in exactly one list, chosen by the colon |
| `Candidates.BuildDnsList` | dns.py:58-74 | on the built-in masters, both lists are duplicate-free and split cleanly by colon; each list starts with its whole master list, in order; each custom entry lands in the list its colon picks |
| `Candidates.MastersWellFormed` | dns.py:58-74 | no IPv4 master address contains a colon and every IPv6 master address does |
| `Candidates.Ipv4MasterDistinct` | dns.py:58-68 | the IPv4 master list has no duplicates |
| `Candidates.Ipv6MasterDistinct` | dns.py:70-74 | the IPv6 master list has no duplicates |
| `Candidates.CandidatesAsWritten` | dns.py:995-1001 | as written, with IPv6 on, the cycle's list is the module-level IPv4 list itself, grown by the IPv6 list; with IPv6 off the module-level list is left alone |
| `Candidates.AsWrittenGrows` | dns.py:995-997 | as written, cycle n probes \|v4\| + (n+1)·\|v6\| addresses, because the module-level list grows by the IPv6 list every cycle |
| `Candidates.AsWrittenDuplicatesOnSecondCycle` | dns.py:995-997 | as written, the second cycle's list on the built-in masters has a duplicate |
| `Candidates.CycleCandidates` | dns.py:995-1001 | the intended list holds the IPv4 addresses (minus colon addresses when IPv6 is off) and, when IPv6 is on, the IPv6 ones, and nothing else |
| `Candidates.AsWrittenShape` | dns.py:995-997 | as written, cycle n probes the IPv4 list, the IPv6 list, and then n further copies of the IPv6 list |
| `Candidates.CycleCandidatesStable` | dns.py:995-1001 | the intended list is duplicate-free, is the IPv4 list itself when IPv6 is off, and holds on every cycle the same addresses as the as-written list |
| `Probe.FirstMatch` | dns.py:227 | `re.search` finds the leftmost position where the pattern matches, or reports that it matches nowhere |
| `Probe.PingParseLeftmost` | dns.py:227-231 | the parse is the integer part of the number at the leftmost match after "time"; with no match it is 1 when the output contains "<1", and otherwise no latency |
| `Probe.PingParseWithoutTime` | dns.py:227-231 | output without "time" yields 1 if it mentions "<1" and otherwise nothing |
| `Probe.PingParseReadsReply` | dns.py:227-229 | a reply reporting `time=<n>` reads back as n, provided "time" does not start earlier |
| `Probe.TimeoutSeconds` | dns.py:219 | the timeout is at least 1 second; it is exactly 1 below 2000 ms; otherwise it is the whole seconds contained in the millisecond value |
| `Probe.Sort` | dns.py:262 | the samples come out sorted and as a permutation of the input |
| `Probe.SortedUnique` | dns.py:262 | two ascending sequences with the same elements are equal, so the sorted order is unique |
| `Probe.MedianBounds` | dns.py:262 | the truncated median lies between the least and the greatest sample, and is one of the samples for an odd count |
| `Probe.MedianPermutation` | dns.py:262 | the median does not depend on the order the samples arrive in |
| `Probe.PingAttempts` | dns.py:254 | at least one ping is sent, and exactly `ping_count` when that is positive |
| `Probe.SuccessesMembers` | dns.py:256-259 | the kept latencies are exactly the successful pings' values, no more of them than pings |
| `Probe.SendPings` | dns.py:254-259 | the ping loop keeps exactly the latencies of the successful pings, in the order they were sent |
| `Probe.TestHostLatency` | dns.py:253-263 | the probe sends max(1, ping_count) pings; when any succeeds, the result is the truncated median of exactly the successful samples and lies between their least and greatest; otherwise it is the HTTP probe's result |
| `Selection.Lookup` | dns.py:1025 | a lookup finds a value exactly for the dict's keys |
| `Selection.DictSet` | dns.py:1013 | storing a key makes the keys the old keys plus that key, and every existing key keeps its position |
| `Selection.DictSetGrows` | dns.py:1013 | storing an existing key keeps the dict's size; storing a new key appends it as the last entry |
| `Selection.DictSetDistinct` | dns.py:1013 | storing a key keeps the keys distinct |
| `Selection.DictSetLookup` | dns.py:1013 | after `results[k] = v`, k maps to v and every other key maps to what it mapped to before |
| `Selection.Collect` | dns.py:1005-1015 | the results dict has distinct keys, exactly the addresses of which some probe gave a latency |
| `Selection.CollectKeepsLastLatency` | dns.py:1008-1013 | each address's stored latency is the one reported by its last successful probe |
| `Selection.DictSetSame` | dns.py:1013 | storing the value a key already holds leaves the dict unchanged |
| `Selection.CollectIgnoresRepeats` | dns.py:1005-1013 | probing again addresses already probed, each giving the same answer, leaves the results dict unchanged |
| `Selection.ProbeAllResults` | dns.py:1005-1015 | after a probe round the dict maps each candidate to its probe's latency and holds nothing else |
| `Selection.BestIndex` | dns.py:1025 | `min` picks the first entry with the least latency |
| `Selection.BestIsMinimum` | dns.py:1024-1026 | the best resolver is a key of the results, its stored latency is its own entry, and no key has a lower latency |
| `Selection.PushHistory` | dns.py:1037-1043 | after a push the history holds at most 100 samples and ends with the new one; earlier samples keep their order; only the oldest is dropped, and only when the history was full |
| `Selection.PushAllKeepsNewest` | dns.py:1037-1043 | after any run of pushes the history is the newest 100 of all samples ever pushed |
| `Selection.NewestPush` | dns.py:1037-1043 | one push turns the newest 100 of a stream into the newest 100 of the stream extended by the new sample |
| `Selection.SetOnAll` | dns.py:1051-1054 | the winner is offered to every interface in order, and the switch succeeds exactly when some interface accepts it |
| `Selection.SetUntilAccepted` | dns.py:1067-1071 | an address is offered to the interfaces in order up to the first that accepts it |
| `Selection.Fallback` | dns.py:1066-1071 | after the fallback loop the resolver is unchanged or an accepted fallback address; it is unchanged when none is accepted; every fallback address is offered to the first interface |
| `Selection.LastAcceptedAppend` | dns.py:1066-1071 | reading the last accepted address over two blocks of fallbacks is reading it over each in turn |
| `Selection.FallbackIsLastAccepted` | dns.py:1076-1081 | the fallback loop ends on the last fallback address some interface accepts, or on the old resolver when none does |
| `Games.ScanProcesses` | dns.py:324-331 | the scan reports a game exactly when some process matches and every earlier process had a readable name; an unreadable name ends the scan with "no game" |
| `Games.LoweredMembership` | dns.py:326 | membership of the lowered name in the lowered game list is case-insensitive equality with some game name |
| `Games.ScanGames` | dns.py:316-331 | over any game list, the result is true exactly when pausing is on and the scan finds a listed game |
| `Games.IsGameRunning` | dns.py:316-331 | a game is reported exactly when pausing is on and some process, reached before any unreadable name, equals a built-in or user-listed game name ignoring case |
| `Games.ScanIgnoresCase` | dns.py:326 | upper-casing every process name does not change the scan's answer |
| `Games.DetectionIgnoresCase` | dns.py:326 | upper-casing every process name does not change `is_game_running`'s answer |
| `Games.WatchStep` | dns.py:964-977 | a new scan runs only after more than `game_cache_seconds`; a transition is reported exactly when the new state differs from the last; inside the cache window nothing changes |
| `Client.PlatformOf` | dns.py:391-401 | Windows exactly when "windows" occurs; Linux exactly when "linux" occurs without "windows"; Unknown exactly when no platform word occurs |
| `Client.BrowserOf` | dns.py:404-414 | Chrome exactly when "chrome" occurs without "edg"; Edge exactly when "edg" occurs, "firefox" does not, and "safari" occurs only alongside "chrome"; Unknown exactly when no browser word occurs |
| `Client.GetClientInfo` | dns.py:387-422 | the three returned strings are the platform label and the browser label of the lowered header, and a text that reads back as that platform and browser |
| `Client.FirstRuleFinds` | dns.py:391-414 | the reference reading of an ordered rule table gives the outcome of the first rule that fires, or the default when none does |
| `Client.PlatformIsFirstRule` | dns.py:391-401 | the platform is the first platform rule to fire, in the order windows, linux, mac/darwin, android, ios/iphone |
| `Client.BrowserIsFirstRule` | dns.py:404-414 | the browser is the first browser rule to fire, in the order chrome-without-edg, firefox, safari-without-chrome, edg, opera |
| `Client.ClassificationIgnoresCase` | dns.py:388 | upper-casing the header changes nothing |
| `Client.AndroidHeaderReadsLinux` | dns.py:394-399 | a lowered header naming Linux and then Android is reported as Linux, or as Windows if it also names Windows |
| `Client.IphoneHeaderReadsMac` | dns.py:396-401 | a lowered header naming an iPhone and then "mac" is reported as macOS unless it also names Windows or Linux |
| `Client.InfoTextRoundTrip` | dns.py:416 | `"<platform> (<browser>)"` reads back as its platform and browser |
| `Client.InfoTextInjective` | dns.py:416 | two classifications share a text exactly when they are equal |
| `Interfaces.Harvest` | dns.py:169-173 | the names found are at most one per line, each produced by some line, and one per line when every line parses |
| `Interfaces.HarvestAppend` | dns.py:182-186 | parsing two blocks of lines is parsing each in turn |
| `Interfaces.NetshLine` | dns.py:170-173 | a row yields a name exactly when it mentions Connected or Terhubung and has at least four fields; the name is non-empty and has no surrounding whitespace |
| `Interfaces.ParseNetsh` | dns.py:166-174 | every name read from the table is non-empty and has no surrounding whitespace |
| `Interfaces.NetshRowReadsName` | dns.py:170-173 | a row laid out in columns padded by any runs of whitespace, with optional leading and trailing whitespace, whose state column reads Connected or Terhubung, yields its name's words joined by single spaces |
| `Interfaces.NmcliLine` | dns.py:183-186 | a line yields a name exactly when it has a colon and the stripped text after the first colon is "connected"; the name never contains a colon |
| `Interfaces.ParseNmcli` | dns.py:179-187 | no name read from nmcli's output contains a colon |
| `Interfaces.SplitOnceAt` | dns.py:184 | `split(':', 1)` splits at the first colon |
| `Interfaces.NmcliRowReadsName` | dns.py:183-186 | `device:state` yields the device exactly when the stripped state is "connected" |
| `Interfaces.NmcliTableRoundTrip` | dns.py:179-187 | nmcli's terse output for a device table reads back as the connected devices, in order |
| `Interfaces.MatchIpLink` | dns.py:193-195 | a matched group is non-empty and has no whitespace |
| `Interfaces.IpLinkSound` | dns.py:193-195 | whatever the match finds is the group of a line of the form digits, ": ", name, ": <", rest |
| `Interfaces.IpLinkComplete` | dns.py:193-195 | every line of that form is matched, with its name as the group |
| `Interfaces.IpLinkReadsName` | dns.py:193-195 | the line `ip link` prints for interface number n reads back as the interface's name |
| `Interfaces.ParseIpLink` | dns.py:190-196 | every name read from `ip link` is non-empty and has no whitespace |
| `Interfaces.GetInterfaces` | dns.py:163-206 | on Windows the result is netsh's table as parsed, or nothing when netsh fails; elsewhere it is nmcli's output as parsed, `ip link`'s output as parsed only when nmcli cannot start, and nothing when both fail |
| `Interfaces.GetInterfacesReadsNmcliTable` | dns.py:178-187 | off Windows, with nmcli running, the result is the connected devices of nmcli's table, in order, whatever `ip link` prints |
| `Worker.InitialDashboard` | dns.py:377-384 | the dashboard starts with an empty history, status Running and no current resolver |
| `Worker.Cycle` | dns.py:1024-1081 | when some candidate answers: the fastest answering candidate is shown with its own latency; the dashboard shows the resolver in use before the cycle; the history gains the sample. A different winner becomes current when some interface accepts it; otherwise the fallback loop decides, ending on the last accepted fallback address or the old resolver. An unchanged winner makes no calls. When nothing answers: only the status changes, and the last accepted fallback becomes current. In every case the resolver changes only to an address some interface accepted |
| `Worker.ProbedKeys` | dns.py:1005-1024 | the results dict is empty exactly when no candidate answered |
| `Worker.ShowTransition` | dns.py:970-977 | a game start shows "Paused", a game end shows "Running", no transition leaves the dashboard alone, and nothing but the status ever changes |
| `Worker.Iterate` | dns.py:962-1084 | a pass ends the loop exactly when it reads the game flag before any scan has set it. A paused pass makes no calls and leaves the resolver and the history alone. The resolver changes only to an accepted address. The history stays within 100 |
| `Worker.AfterCheck` | dns.py:979-1081 | the rest of a pass after the game check keeps the game state; while a game runs it only shows the dashboard and makes no calls; the resolver changes only to an accepted address; the history stays within 100 |
| `Worker.Run` | dns.py:962-1088 | a run completes at most as many passes as it is given, and stops only at a pass that ends the loop: when fewer passes complete than are given, the next pass ends the loop |
| `Worker.AsWrittenCycleAgrees` | dns.py:995-1015 | when each address gives one latency per pass, the cycle on the as-written list of any cycle number ends exactly like the cycle on the corrected list; with IPv6 off the two lists are equal |
| `Worker.CycleDependsOnResults` | dns.py:1005-1081 | a cycle depends on its candidate list only through the results dict |
| `Worker.RunKeepsHistoryBound` | dns.py:1037-1043 | over any run the history never exceeds 100 samples |
| `Worker.RunOnlyAcceptedResolvers` | dns.py:1049-1081 | over any run the resolver in use is the initial one or one some interface accepted during a completed pass |
| `Worker.PausedPassIsQuiet` | dns.py:979-981 | while a game runs and the cache holds, a pass changes nothing and makes no calls |
| `Worker.UnpausedPassRunsCycle` | dns.py:964-1081 | with game pausing off, a pass whose cache has expired records "no game", shows "Running" if a game had been reported, and then runs the probing cycle on the per-cycle candidates |
| `Text.WordsOfJoin` | dns.py:171-173 | splitting a single-space join of words gives the words back |
| `Text.WordsOfPadded` | dns.py:171 | `split()` of words laid out in columns, separated by non-empty runs of whitespace and with any leading and trailing whitespace, gives the words back |
| `Text.SplitLinesOfJoin` | dns.py:169 | splitting printed lines gives the lines back |
| `Text.ShowNatValue` | dns.py:193 | reading back a rendered number gives the number |

## Left out

- The operating system is outside the model. Process listing, `subprocess`, `ctypes`, HTTP and the DNS set/reset commands are not modelled: their results are parameters. This covers `http_latency`, `set_dns_on_interface`, `reset_dns_on_interface`, `verify_dns_change` and `is_admin`.
- The startup checks in `worker_main` are not modelled. These are the administrator check, the empty-interface check, and starting the dashboard thread.
- `verify_dns_change` after a successful switch only logs, so it is not modelled.
- I/O and timing are left out: logging, terminal clearing, CSV writing (`save_to_csv`), `sleep` and signal handling. So is the Flask app and its HTML page.
- `ping_delay_s` is a float used only for `sleep`, so it is not a field of the configuration record.
- The thread pool is modelled as a sequential map in candidate order. The real completion order is nondeterministic. With the corrected candidate list, which has no duplicates, the results dict holds the same entries either way. Only its iteration order changes, and with it which of several equally fast resolvers `min` picks.
- Python floats are not modelled. Latencies are whole milliseconds. `int(float(...))` of the captured ping number is modelled as the value of its leading digit run. Python differs where float rounding carries into the integer part: a fraction close enough to the next integer rounds up (`time=0.99999999999999999` gives 1, and `time=2.9999999999999999` gives 3, where the model gives 0 and 2), and so do integer parts beyond 2^53.
- `lower()` and `\d` are modelled on ASCII only. The user-agent words are ASCII, but game names come from the user's configuration and process names from the operating system, and either can be non-ASCII. The model compares non-ASCII game and process names case-sensitively: `ИГРА.EXE` matches a listed `игра.exe` at dns.py:326 but not in `Games.IsGameRunning`. Digits from other scripts in ping output and `ip link` lines are not digits in the model either.
- A configuration file of the wrong JSON types is not modelled. The user record has the same types as the defaults, so the branch that restores a missing `games` key (dns.py:134-135) cannot fire.
- The clock is an integer number of seconds. With `time.time()`, the first pass always scans. With an integer clock, a first pass within `game_cache_seconds` of 0 reads the unassigned game flag, and `Iterate` returns `None` for it.
- The dashboard object is modelled as a value replaced by each pass, not as shared mutable state read by the web thread.
- `Worker.Cycle`: within one pass, `Env.probe` gives each address one latency and `Env.accepts` gives each (interface, address) pair one answer. In the program every ping and every `set_dns_on_interface` call is a fresh command whose result can differ. So when the best resolver is rejected by every interface and then reappears among the fallback addresses (the defaults 8.8.8.8, 1.1.1.1 and 9.9.9.9 are all IPv4 master addresses), the model rejects it again, while the program may succeed on the second try. `Worker.AsWrittenCycleAgrees` depends on the same simplification.
- `Client.AndroidHeaderReadsLinux` and `Client.IphoneHeaderReadsMac` state the precedence for lowered headers with the words in one order. The other order follows from `Client.PlatformOf` in the same way, and `Client.ClassificationIgnoresCase` carries both to headers in any case.

## Findings

| source | as written | input that shows it | evidently intended | confidence | as-written member | corrected member |
|---|---|---|---|---|---|---|
| dns.py:995-997 | `all_dns = DNS_IPV4` aliases the module-level IPv4 list, so `all_dns += DNS_IPV6` extends that list in place on every cycle with IPv6 enabled | the built-in lists, no custom entries, IPv6 on: the second cycle's list holds every IPv6 address twice, and cycle n probes 41 + 10·(n+1) addresses | a fresh per-cycle list of the IPv4 addresses followed by the IPv6 ones, the same on every cycle | not executed | `Candidates.CandidatesAsWritten` | `Candidates.CycleCandidates` |

The loop in `Worker` uses `Candidates.CycleCandidates`. The two lists hold
the same set of addresses on every cycle (`Candidates.CycleCandidatesStable`).
When each address gives one latency per pass, a cycle on the as-written
list picks, shows and switches exactly as on the corrected list
(`Worker.AsWrittenCycleAgrees`): a repeated address only stores again the
latency it already holds. In the program each repeat is a fresh probe whose
latency overwrites the earlier one, so the defect also changes which
measurement is kept, costs a growing number of probes per cycle, and grows
memory use without bound.
