/** One pass of the monitoring loop in `worker_main` (dns.py): the cached
    game check, the probe of every candidate, the choice of the fastest
    resolver, the dashboard and history update, the switch, and the
    fallback paths. The operating system is reached only through the
    parameters of `Env`. */
module Worker {
  import opened Options
  import opened Settings
  import opened Candidates
  import opened Selection
  import opened Games

  datatype Status = Running | PausedForGame | NoDnsAvailable

  /** The status strings the dashboard shows. */
  function StatusText(s: Status): string {
    match s
    case Running => "Running"
    case PausedForGame => "Paused (Game Running)"
    case NoDnsAvailable => "Error: No DNS available"
  }

  /** The shared `dashboard_data` object. */
  datatype Dashboard = Dashboard(
    currentDns: string,
    bestDns: string,
    latency: nat,
    status: Status,
    lastUpdate: string,
    history: seq<Sample>)

  /** `dashboard_data` as the program starts, stamped with `startedAt`. */
  function InitialDashboard(startedAt: string): (d: Dashboard)
    ensures d.history == [] && d.status == Running && d.currentDns == ""
  {
    Dashboard("", "", 0, Running, startedAt, [])
  }

  /** What the outside world supplies to one pass of the loop: the clock
      (as seconds, as an ISO timestamp and as `HH:MM:SS`), the process
      table, the latency probe of each address, and whether an interface
      accepts a resolver. */
  datatype Env = Env(
    now: int,
    iso: string,
    hms: string,
    processes: seq<Option<string>>,
    probe: string -> Option<nat>,
    accepts: (string, string) -> bool)

  /** What a probing cycle leaves behind. */
  datatype CycleResult = CycleResult(current: string, dashboard: Dashboard, calls: seq<SetCall>)

  /** The probing cycle proper, on the candidate list `candidates`, with
      `current` the resolver in use. When some candidate answered, the
      dashboard records the fastest one (after recording the resolver in
      use before this cycle as `current_dns`), the history gains a sample,
      and a resolver different from the current one is set on every
      interface; if no interface accepts it, the fallback addresses are
      tried. When no candidate answered, the status reports it and the
      fallback addresses are tried. */
  function Cycle(candidates: seq<string>, ifaces: seq<string>, fallbacks: seq<string>,
                 current: string, dash: Dashboard, env: Env): (r: CycleResult)
    // the fastest answering candidate is chosen
    ensures (exists c | c in candidates :: env.probe(c).Some?) ==>
              && r.dashboard.bestDns in candidates
              && env.probe(r.dashboard.bestDns) == Some(r.dashboard.latency)
              && (forall c | c in candidates && env.probe(c).Some? :: r.dashboard.latency <= env.probe(c).value)
              && r.dashboard.currentDns == current
              && r.dashboard.status == Running
              && r.dashboard.lastUpdate == env.iso
              && r.dashboard.history == PushHistory(dash.history, Sample(env.hms, r.dashboard.latency))
    // the switch rule
    ensures (exists c | c in candidates :: env.probe(c).Some?) && r.dashboard.bestDns == current ==>
              r.current == current && r.calls == []
    ensures (exists c | c in candidates :: env.probe(c).Some?) && r.dashboard.bestDns != current
              && AcceptedBySome(ifaces, r.dashboard.bestDns, env.accepts) ==>
              r.current == r.dashboard.bestDns
    ensures (exists c | c in candidates :: env.probe(c).Some?) && r.dashboard.bestDns != current
              && !AcceptedBySome(ifaces, r.dashboard.bestDns, env.accepts) ==>
              r.current == LastAccepted(fallbacks, ifaces, env.accepts, current)
    // nothing answered
    ensures (forall c | c in candidates :: env.probe(c).None?) ==>
              && r.dashboard == dash.(status := NoDnsAvailable)
              && r.current == LastAccepted(fallbacks, ifaces, env.accepts, current)
    // the resolver changes only to one that some interface accepted
    ensures r.current == current || AcceptedBySome(ifaces, r.current, env.accepts)
  {
    var results := Collect(ProbeAll(candidates, env.probe));
    ProbedKeys(candidates, env.probe);
    if results != [] then
      var k := BestIndex(results);
      var best, latency := results[k].dns, results[k].latency;
      BestIsMinimum(results);
      ProbeAllResults(candidates, env.probe, best);
      forall c | c in candidates && env.probe(c).Some? ensures latency <= env.probe(c).value {
        ProbeAllResults(candidates, env.probe, c);
      }
      var shown := dash.(currentDns := current, bestDns := best, latency := latency,
                         lastUpdate := env.iso, status := Running,
                         history := PushHistory(dash.history, Sample(env.hms, latency)));
      if best != current then
        var (calls, ok) := SetOnAll(ifaces, best, env.accepts);
        if ok then CycleResult(best, shown, calls)
        else
          FallbackIsLastAccepted(fallbacks, ifaces, env.accepts, current);
          var (next, more) := Fallback(fallbacks, ifaces, env.accepts, current);
          CycleResult(next, shown, calls + more)
      else CycleResult(current, shown, [])
    else
      FallbackIsLastAccepted(fallbacks, ifaces, env.accepts, current);
      var (next, more) := Fallback(fallbacks, ifaces, env.accepts, current);
      CycleResult(next, dash.(status := NoDnsAvailable), more)
  }

  /** The results dictionary is empty exactly when no candidate answered. */
  lemma ProbedKeys(candidates: seq<string>, probe: string -> Option<nat>)
    ensures Collect(ProbeAll(candidates, probe)) == [] <==> forall c | c in candidates :: probe(c).None?
  {
    var outcomes := ProbeAll(candidates, probe);
    var results := Collect(outcomes);
    if results != [] {
      assert results[0].dns in Keys(results);
      var i :| 0 <= i < |outcomes| && outcomes[i].0 == results[0].dns && outcomes[i].1.Some?;
      assert candidates[i] in candidates;
    } else {
      forall c | c in candidates ensures probe(c).None? {
        var i :| 0 <= i < |candidates| && candidates[i] == c;
        assert outcomes[i].0 == c;
        assert c !in Keys(results);
      }
    }
  }

  /** When the probe gives each address one answer per pass, the growing
      as-written candidate list of any cycle ends in the same cycle as the
      corrected list: the repeated IPv6 addresses only store again the
      latencies they already hold. With IPv6 disabled the two lists are
      equal. */
  lemma AsWrittenCycleAgrees(v4: seq<string>, v6: seq<string>, n: nat, ifaces: seq<string>,
                             fallbacks: seq<string>, current: string, dash: Dashboard, env: Env)
    ensures Cycle(CandidatesAsWritten(GlobalAfter(v4, v6, n), v6, true).0, ifaces, fallbacks, current, dash, env)
            == Cycle(CycleCandidates(v4, v6, true), ifaces, fallbacks, current, dash, env)
    ensures CandidatesAsWritten(v4, v6, false).0 == CycleCandidates(v4, v6, false)
  {
    AsWrittenShape(v4, v6, n);
    CollectIgnoresRepeats(v4 + v6, Repeat(v6, n), env.probe);
    CycleDependsOnResults(CandidatesAsWritten(GlobalAfter(v4, v6, n), v6, true).0, CycleCandidates(v4, v6, true),
                          ifaces, fallbacks, current, dash, env);
  }

  /** A cycle depends on its candidate list only through the results dict. */
  lemma CycleDependsOnResults(a: seq<string>, b: seq<string>, ifaces: seq<string>,
                              fallbacks: seq<string>, current: string, dash: Dashboard, env: Env)
    requires Collect(ProbeAll(a, env.probe)) == Collect(ProbeAll(b, env.probe))
    ensures Cycle(a, ifaces, fallbacks, current, dash, env) == Cycle(b, ifaces, fallbacks, current, dash, env)
  {
  }

  // ---------------------------------------------------------------------
  // The loop
  // ---------------------------------------------------------------------

  /** The values the loop carries from one pass to the next. */
  datatype Loop = Loop(current: string, dashboard: Dashboard, watch: GameWatch)

  function InitialLoop(startedAt: string): Loop {
    Loop("", InitialDashboard(startedAt), InitialWatch)
  }

  /** The dashboard status after a reported game transition. */
  function ShowTransition(d: Dashboard, t: Option<Transition>): (r: Dashboard)
    ensures r == d.(status := r.status)
    ensures t == Some(GameStarted) ==> r.status == PausedForGame
    ensures t == Some(GameEnded) ==> r.status == Running
    ensures t.None? ==> r == d
  {
    match t
    case Some(GameStarted) => d.(status := PausedForGame)
    case Some(GameEnded) => d.(status := Running)
    case None => d
  }

  /** One pass of the loop. The game check runs first; while a game is
      running the pass only waits. Otherwise the cycle runs on the
      candidates for this pass. The result is `None` when the pass reads
      `game_running` before any scan has assigned it: that `NameError`
      leaves the loop for the shutdown handler. */
  function Iterate(cfg: Config, v4: seq<string>, v6: seq<string>, ifaces: seq<string>,
                   s: Loop, env: Env): (r: Option<(Loop, seq<SetCall>)>)
    ensures r.None? <==> s.watch.running.None? && env.now - s.watch.lastCheck <= cfg.gameCacheSeconds
    ensures r.Some? && r.value.0.watch.running == Some(true) ==>
              && r.value.1 == []
              && r.value.0.current == s.current
              && r.value.0.dashboard.history == s.dashboard.history
    ensures r.Some? ==> r.value.0.current == s.current || AcceptedBySome(ifaces, r.value.0.current, env.accepts)
    ensures r.Some? && |s.dashboard.history| <= HistoryCapacity ==> |r.value.0.dashboard.history| <= HistoryCapacity
  {
    var scan := IsGameRunning(cfg.gamePause, cfg.games, env.processes);
    var (watch, transition) := WatchStep(s.watch, env.now, cfg.gameCacheSeconds, scan);
    if watch.running.None? then None
    else Some(AfterCheck(cfg, v4, v6, ifaces, s, watch, ShowTransition(s.dashboard, transition), env))
  }

  /** The rest of a pass once the game flag is assigned: wait while a game
      runs, otherwise run the cycle. */
  function AfterCheck(cfg: Config, v4: seq<string>, v6: seq<string>, ifaces: seq<string>,
                      s: Loop, watch: GameWatch, dash: Dashboard, env: Env): (r: (Loop, seq<SetCall>))
    requires watch.running.Some?
    ensures r.0.watch == watch
    ensures watch.running == Some(true) ==> r == (Loop(s.current, dash, watch), [])
    ensures r.0.current == s.current || AcceptedBySome(ifaces, r.0.current, env.accepts)
    ensures |dash.history| <= HistoryCapacity ==> |r.0.dashboard.history| <= HistoryCapacity
  {
    if watch.running.value then (Loop(s.current, dash, watch), [])
    else
      var c := Cycle(CycleCandidates(v4, v6, cfg.useIpv6), ifaces, cfg.fallbackDns, s.current, dash, env);
      (Loop(c.current, c.dashboard, watch), c.calls)
  }

  /** The loop over a sequence of passes, stopping at the first pass that
      ends it. Returns the carried values after the last pass that
      completed, the number of passes completed, and every
      `set_dns_on_interface` call made. */
  function Run(cfg: Config, v4: seq<string>, v6: seq<string>, ifaces: seq<string>,
               s: Loop, envs: seq<Env>): (r: (Loop, nat, seq<SetCall>))
    ensures r.1 <= |envs|
    ensures r.1 < |envs| ==> Iterate(cfg, v4, v6, ifaces, r.0, envs[r.1]).None?
    decreases |envs|
  {
    if envs == [] then (s, 0, [])
    else
      match Iterate(cfg, v4, v6, ifaces, s, envs[0])
      case None => (s, 0, [])
      case Some((next, calls)) =>
        var (last, n, more) := Run(cfg, v4, v6, ifaces, next, envs[1..]);
        assert n < |envs[1..]| ==> envs[1..][n] == envs[n + 1];
        (last, n + 1, calls + more)
  }

  /** Over any run the history never holds more than 100 samples. */
  lemma {:induction false} RunKeepsHistoryBound(cfg: Config, v4: seq<string>, v6: seq<string>,
                                                 ifaces: seq<string>, s: Loop, envs: seq<Env>)
    requires |s.dashboard.history| <= HistoryCapacity
    ensures |Run(cfg, v4, v6, ifaces, s, envs).0.dashboard.history| <= HistoryCapacity
    decreases |envs|
  {
    if envs != [] {
      var r := Iterate(cfg, v4, v6, ifaces, s, envs[0]);
      if r.Some? {
        RunKeepsHistoryBound(cfg, v4, v6, ifaces, r.value.0, envs[1..]);
      }
    }
  }

  /** Over any run the resolver in use is the one it started with or one
      that some interface accepted during a completed pass. */
  lemma {:induction false} RunOnlyAcceptedResolvers(cfg: Config, v4: seq<string>, v6: seq<string>,
                                                     ifaces: seq<string>, s: Loop, envs: seq<Env>)
    ensures var (last, n, _) := Run(cfg, v4, v6, ifaces, s, envs);
            last.current == s.current || exists i | 0 <= i < n :: AcceptedBySome(ifaces, last.current, envs[i].accepts)
    decreases |envs|
  {
    if envs != [] {
      var r := Iterate(cfg, v4, v6, ifaces, s, envs[0]);
      if r.Some? {
        var next := r.value.0;
        RunOnlyAcceptedResolvers(cfg, v4, v6, ifaces, next, envs[1..]);
        var (last, n, _) := Run(cfg, v4, v6, ifaces, next, envs[1..]);
        if last.current != next.current {
          var i :| 0 <= i < n && AcceptedBySome(ifaces, last.current, envs[1..][i].accepts);
          assert envs[1..][i] == envs[i + 1];
        } else if next.current != s.current {
          assert AcceptedBySome(ifaces, last.current, envs[0].accepts);
        }
      }
    }
  }

  /** While a game keeps running and the cache keeps the last scan, passes
      make no calls and leave the resolver and the dashboard alone. */
  lemma PausedPassIsQuiet(cfg: Config, v4: seq<string>, v6: seq<string>, ifaces: seq<string>, s: Loop, env: Env)
    requires s.watch.running == Some(true)
    requires env.now - s.watch.lastCheck <= cfg.gameCacheSeconds
    ensures Iterate(cfg, v4, v6, ifaces, s, env) == Some((s, []))
  {
  }

  /** With game pausing disabled, every pass after a scan probes: the cycle
      runs, on the dashboard as the game check left it (a game reported
      earlier is reported ended), and the pass reports its calls. */
  lemma UnpausedPassRunsCycle(cfg: Config, v4: seq<string>, v6: seq<string>, ifaces: seq<string>, s: Loop, env: Env)
    requires !cfg.gamePause
    requires env.now - s.watch.lastCheck > cfg.gameCacheSeconds
    ensures var dash := ShowTransition(s.dashboard, if s.watch.lastState then Some(GameEnded) else None);
            var c := Cycle(CycleCandidates(v4, v6, cfg.useIpv6), ifaces, cfg.fallbackDns, s.current, dash, env);
            Iterate(cfg, v4, v6, ifaces, s, env) ==
              Some((Loop(c.current, c.dashboard, GameWatch(env.now, false, Some(false))), c.calls))
  {
    var scan := IsGameRunning(cfg.gamePause, cfg.games, env.processes);
    assert !scan;
    var (watch, t) := WatchStep(s.watch, env.now, cfg.gameCacheSeconds, scan);
    assert watch == GameWatch(env.now, false, Some(false));
    assert t == if s.watch.lastState then Some(GameEnded) else None;
  }
}
