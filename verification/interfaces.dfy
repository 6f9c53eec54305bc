/** Discovery of the connected network interfaces (`get_interfaces`,
    dns.py): the line parsers for the three command outputs it reads
    (`netsh interface show interface` on Windows, `nmcli -t -f
    DEVICE,STATE device` elsewhere, and `ip link show up` when nmcli
    cannot be started), and the choice between them. */
module Interfaces {
  import opened Options
  import opened Text

  /** Runs `parse` over every line and keeps the names it finds, in line
      order. */
  function Harvest(lines: seq<string>, parse: string -> Option<string>): (r: seq<string>)
    ensures |r| <= |lines|
    ensures forall x | x in r :: exists l | l in lines :: parse(l) == Some(x)
    ensures (forall l | l in lines :: parse(l).Some?) ==> |r| == |lines|
  {
    if lines == [] then []
    else
      var rest := Harvest(lines[1..], parse);
      assert forall l | l in lines[1..] :: l in lines;
      match parse(lines[0])
      case Some(n) => [n] + rest
      case None => rest
  }

  lemma HarvestCons(lines: seq<string>, parse: string -> Option<string>)
    requires lines != []
    ensures Harvest(lines, parse) ==
            (if parse(lines[0]).Some? then [parse(lines[0]).value] else []) + Harvest(lines[1..], parse)
  {
  }

  /** Harvesting two blocks of lines is harvesting each in turn. */
  lemma {:induction false} HarvestAppend(a: seq<string>, b: seq<string>, parse: string -> Option<string>)
    ensures Harvest(a + b, parse) == Harvest(a, parse) + Harvest(b, parse)
  {
    if a == [] {
      assert a + b == b;
    } else {
      assert (a + b)[0] == a[0];
      assert (a + b)[1..] == a[1..] + b;
      HarvestAppend(a[1..], b, parse);
    }
  }

  // ---------------------------------------------------------------------
  // netsh interface show interface
  // ---------------------------------------------------------------------

  /** A row qualifies when it mentions `Connected` (or the Indonesian
      `Terhubung`) and splits into at least four fields; the name is the
      fourth field onwards, re-joined with single spaces. */
  function NetshLine(line: string): (r: Option<string>)
    ensures r.Some? <==> (Contains(line, "Connected") || Contains(line, "Terhubung")) && |Words(line)| >= 4
    ensures r.Some? ==> r.value != [] && !IsSpace(r.value[0]) && !IsSpace(r.value[|r.value| - 1])
  {
    if Contains(line, "Connected") || Contains(line, "Terhubung") then
      var parts := Words(line);
      if |parts| >= 4 then
        JoinSpaceEnds(parts[3..]);
        StripTrimmed(JoinSpace(parts[3..]));
        Some(Strip(JoinSpace(parts[3..])))
      else None
    else None
  }

  function ParseNetsh(out: string): (r: seq<string>)
    ensures forall x | x in r :: x != [] && !IsSpace(x[0]) && !IsSpace(x[|x| - 1])
  {
    var lines := SplitLines(out);
    var r := Harvest(lines, NetshLine);
    assert forall x | x in r :: x != [] && !IsSpace(x[0]) && !IsSpace(x[|x| - 1]) by {
      forall x | x in r ensures x != [] && !IsSpace(x[0]) && !IsSpace(x[|x| - 1]) {
        var l :| l in lines && NetshLine(l) == Some(x);
      }
    }
    r
  }

  /** A table row as netsh prints it, its columns padded with runs of
      whitespace, whose state column reads `Connected` or `Terhubung`,
      yields its interface name: the name's words joined by one space. */
  lemma NetshRowReadsName(lead: string, admin: string, state: string, kind: string,
                          name: seq<string>, gaps: seq<string>)
    requires state == "Connected" || state == "Terhubung"
    requires AllSpace(lead) && IsWordList([admin, state, kind] + name) && name != []
    requires ColumnGaps([admin, state, kind] + name, gaps)
    ensures NetshLine(lead + Padded([admin, state, kind] + name, gaps)) == Some(JoinSpace(name))
  {
    var ws := [admin, state, kind] + name;
    var row := lead + Padded(ws, gaps);
    WordsOfPadded(lead, ws, gaps);
    var rest := Padded(ws[2..], gaps[2..]);
    assert ws[1..][1..] == ws[2..] && gaps[1..][1..] == gaps[2..];
    assert Padded(ws[1..], gaps[1..]) == state + gaps[1] + rest;
    assert Padded(ws, gaps) == admin + gaps[0] + (state + gaps[1] + rest);
    var pre := lead + admin + gaps[0];
    assert row == pre + state + (gaps[1] + rest);
    assert row[|pre|..|pre| + |state|] == state;
    ContainsAt(row, state, |pre|);
    assert ws[3..] == name;
    JoinSpaceEnds(name);
    StripTrimmed(JoinSpace(name));
  }

  // ---------------------------------------------------------------------
  // nmcli -t -f DEVICE,STATE device
  // ---------------------------------------------------------------------

  /** A line qualifies when it has a `:` and the text after the first `:`
      is exactly `connected` once stripped; the name is the stripped text
      before it. */
  function NmcliLine(line: string): (r: Option<string>)
    ensures r.Some? ==> ':' in line && ':' !in r.value
    ensures r.Some? <==> ':' in line && Strip(SplitOnce(line, ':').1) == "connected"
  {
    if ':' in line then
      var (dev, state) := SplitOnce(line, ':');
      if Strip(state) == "connected" then Some(Strip(dev)) else None
    else None
  }

  function ParseNmcli(out: string): (r: seq<string>)
    ensures forall x | x in r :: ':' !in x
  {
    var lines := SplitLines(out);
    var r := Harvest(lines, NmcliLine);
    assert forall x | x in r :: ':' !in x by {
      forall x | x in r ensures ':' !in x {
        var l :| l in lines && NmcliLine(l) == Some(x);
      }
    }
    r
  }

  lemma IndexOfAt(pre: string, c: char, post: string)
    requires c !in pre
    ensures IndexOf(pre + [c] + post, c) == |pre|
  {
    if pre != [] {
      assert (pre + [c] + post)[1..] == pre[1..] + [c] + post;
      IndexOfAt(pre[1..], c, post);
    }
  }

  /** Splitting at a separator that the front part lacks gives the parts. */
  lemma SplitOnceAt(pre: string, c: char, post: string)
    requires c !in pre
    ensures c in pre + [c] + post
    ensures SplitOnce(pre + [c] + post, c) == (pre, post)
  {
    var s := pre + [c] + post;
    assert s[|pre|] == c;
    IndexOfAt(pre, c, post);
    assert s[..|pre|] == pre && s[|pre| + 1..] == post;
  }

  /** `device:connected` yields the device for any device name without a
      colon or surrounding whitespace; other states yield nothing. */
  lemma NmcliRowReadsName(device: string, state: string)
    requires ':' !in device
    requires device != [] ==> !IsSpace(device[0]) && !IsSpace(device[|device| - 1])
    ensures NmcliLine(device + ":" + state) ==
            if Strip(state) == "connected" then Some(device) else None
  {
    SplitOnceAt(device, ':', state);
    StripTrimmed(device);
  }

  // ---------------------------------------------------------------------
  // ip link show up
  // ---------------------------------------------------------------------

  /** `re.match(r"\d+: (\S+): <", line)`: digits at the start of the line,
      `": "`, then a run of non-space characters that ends in `:` and is
      followed by `" <"`; the group is that run without its final `:`.
      Backtracking cannot find another split, because the run's end is
      fixed by the space that follows it. */
  function MatchIpLink(line: string): (r: Option<string>)
    ensures r.Some? ==> r.value != [] && NoSpace(r.value)
  {
    var d := DigitLength(line);
    if d == 0 || !(": " <= line[d..]) then None
    else
      var t := line[d + 2..];
      var k := WordLength(t);
      if k < 2 || t[k - 1] != ':' || !(" <" <= t[k..]) then None
      else Some(t[..k - 1])
  }

  predicate IpLinkShape(line: string, digits: string, name: string, rest: string) {
    && digits != [] && AllDigits(digits)
    && name != [] && NoSpace(name)
    && line == digits + ": " + name + ": <" + rest
  }

  /** What the match finds is the group of a decomposition the pattern
      describes. */
  lemma IpLinkSound(line: string)
    requires MatchIpLink(line).Some?
    ensures exists digits, rest :: IpLinkShape(line, digits, MatchIpLink(line).value, rest)
  {
    var d := DigitLength(line);
    var t := line[d + 2..];
    var k := WordLength(t);
    var n := k - 1;
    assert line[d..][..2] == ": ";
    assert t[k..][..2] == " <";
    assert t[..n] == line[d + 2..d + 2 + n];
    Reassemble(line, d, n);
    assert IpLinkShape(line, line[..d], t[..n], line[d + n + 5..]);
  }

  /** A line with `": "` at `d` and `": <"` right after the next `n`
      characters is the concatenation of its pieces. */
  lemma Reassemble(line: string, d: nat, n: nat)
    requires d + n + 5 <= |line|
    requires line[d] == ':' && line[d + 1] == ' '
    requires line[d + 2 + n] == ':' && line[d + 3 + n] == ' ' && line[d + 4 + n] == '<'
    ensures line == line[..d] + ": " + line[d + 2..d + 2 + n] + ": <" + line[d + n + 5..]
  {
    var l := line[..d] + ": " + line[d + 2..d + 2 + n] + ": <" + line[d + n + 5..];
    assert |l| == |line|;
    forall i | 0 <= i < |line| ensures l[i] == line[i] {
      if i < d {
      } else if i < d + 2 {
      } else if i < d + 2 + n {
      } else if i < d + n + 5 {
      }
    }
  }

  /** The pieces of `digits + ": " + name + ": <" + rest`. */
  lemma Pieces(digits: string, name: string, rest: string)
    ensures var line := digits + ": " + name + ": <" + rest;
            var d := |digits|;
            && |line| == d + |name| + 5 + |rest|
            && line[..d] == digits
            && line[d..] == ": " + name + ": <" + rest
            && line[d + 2..] == name + ": <" + rest
  {
    var line := digits + ": " + name + ": <" + rest;
    var d := |digits|;
    var tail := ": " + name + ": <" + rest;
    assert line == digits + tail;
    assert tail[2..] == name + ": <" + rest;
  }

  /** Every decomposition the pattern describes is found, with its name as
      the group. */
  lemma IpLinkComplete(line: string, digits: string, name: string, rest: string)
    requires IpLinkShape(line, digits, name, rest)
    ensures MatchIpLink(line) == Some(name)
  {
    Pieces(digits, name, rest);
    var d := |digits|;
    assert line == line[..d] + line[d..];
    DigitRunOf(digits, line[d..]);
    assert DigitLength(line) == d;
    assert ": " <= line[d..];
    WordOfIpLinkName(name, rest);
  }

  lemma WordOfIpLinkName(name: string, rest: string)
    requires name != [] && NoSpace(name)
    ensures var t := name + ": <" + rest;
            && WordLength(t) == |name| + 1
            && t[|name|] == ':' && " <" <= t[|name| + 1..] && t[..|name|] == name
  {
    var t := name + ": <" + rest;
    assert t == (name + ":") + (" <" + rest);
    WordLengthOfWord(name + ":", " <" + rest);
    assert t[|name| + 1..] == " <" + rest;
  }

  /** The line `ip link` prints for interface number `n` reads back as its
      name. */
  lemma IpLinkReadsName(n: nat, name: string, rest: string)
    requires name != [] && NoSpace(name)
    ensures MatchIpLink(ShowNat(n) + ": " + name + ": <" + rest) == Some(name)
  {
    IpLinkComplete(ShowNat(n) + ": " + name + ": <" + rest, ShowNat(n), name, rest);
  }

  function ParseIpLink(out: string): (r: seq<string>)
    ensures forall x | x in r :: x != [] && NoSpace(x)
  {
    var lines := SplitLines(out);
    var r := Harvest(lines, MatchIpLink);
    assert forall x | x in r :: x != [] && NoSpace(x) by {
      forall x | x in r ensures x != [] && NoSpace(x) {
        var l :| l in lines && MatchIpLink(l) == Some(x);
      }
    }
    r
  }

  // ---------------------------------------------------------------------
  // Choosing the source
  // ---------------------------------------------------------------------

  /** The outputs of the commands `get_interfaces` may run; `None` for a
      command that could not be started (the call raised). */
  datatype Commands = Commands(netsh: Option<string>, nmcli: Option<string>, ipLink: Option<string>)

  /** On Windows the netsh table is read, and a failure gives no
      interfaces. Elsewhere nmcli's output is read; only when nmcli cannot
      be started is `ip link` read instead, and when that fails too there
      are no interfaces. */
  function GetInterfaces(windows: bool, cmds: Commands): (r: seq<string>)
    ensures windows && cmds.netsh.Some? ==> r == ParseNetsh(cmds.netsh.value)
    ensures windows && cmds.netsh.None? ==> r == []
    ensures !windows && cmds.nmcli.Some? ==> r == ParseNmcli(cmds.nmcli.value)
    ensures !windows && cmds.nmcli.None? && cmds.ipLink.Some? ==> r == ParseIpLink(cmds.ipLink.value)
    ensures !windows && cmds.nmcli.None? && cmds.ipLink.None? ==> r == []
    ensures windows ==> forall x | x in r :: x != [] && !IsSpace(x[0]) && !IsSpace(x[|x| - 1])
    ensures !windows && cmds.nmcli.Some? ==> forall x | x in r :: ':' !in x
    ensures !windows && cmds.nmcli.None? ==> forall x | x in r :: x != [] && NoSpace(x)
  {
    if windows then
      match cmds.netsh
      case Some(out) => ParseNetsh(out)
      case None => []
    else
      match cmds.nmcli
      case Some(out) => ParseNmcli(out)
      case None =>
        match cmds.ipLink
        case Some(out) => ParseIpLink(out)
        case None => []
  }

  /** nmcli's terse output for a list of devices and states gives back the
      connected devices, in order. */
  lemma {:induction false} NmcliTableRoundTrip(rows: seq<(string, string)>)
    requires forall k | 0 <= k < |rows| ::
               && ':' !in rows[k].0 && NoLineBreak(rows[k].0) && NoLineBreak(rows[k].1)
               && (rows[k].0 != [] ==> !IsSpace(rows[k].0[0]) && !IsSpace(rows[k].0[|rows[k].0| - 1]))
    ensures ParseNmcli(JoinLines(NmcliRows(rows))) == Connected(rows)
  {
    NmcliRowsLines(rows);
    SplitLinesOfJoin(NmcliRows(rows));
    HarvestNmcliRows(rows);
  }

  /** Off Windows, when nmcli runs, `get_interfaces` reports the connected
      devices of nmcli's table, in order, whatever `ip link` would print. */
  lemma GetInterfacesReadsNmcliTable(rows: seq<(string, string)>, netsh: Option<string>, ipLink: Option<string>)
    requires forall k | 0 <= k < |rows| ::
               && ':' !in rows[k].0 && NoLineBreak(rows[k].0) && NoLineBreak(rows[k].1)
               && (rows[k].0 != [] ==> !IsSpace(rows[k].0[0]) && !IsSpace(rows[k].0[|rows[k].0| - 1]))
    ensures GetInterfaces(false, Commands(netsh, Some(JoinLines(NmcliRows(rows))), ipLink)) == Connected(rows)
  {
    NmcliTableRoundTrip(rows);
  }

  /** The lines `device:state` of a table. */
  function NmcliRows(rows: seq<(string, string)>): (r: seq<string>)
    ensures |r| == |rows|
    ensures forall k | 0 <= k < |rows| :: r[k] == rows[k].0 + ":" + rows[k].1
  {
    if rows == [] then [] else [rows[0].0 + ":" + rows[0].1] + NmcliRows(rows[1..])
  }

  /** The devices of a table whose stripped state reads `connected`. */
  function Connected(rows: seq<(string, string)>): seq<string> {
    if rows == [] then []
    else if Strip(rows[0].1) == "connected" then [rows[0].0] + Connected(rows[1..])
    else Connected(rows[1..])
  }

  lemma NmcliRowsLines(rows: seq<(string, string)>)
    requires forall k | 0 <= k < |rows| :: NoLineBreak(rows[k].0) && NoLineBreak(rows[k].1)
    ensures forall k | 0 <= k < |rows| :: NoLineBreak(NmcliRows(rows)[k])
  {
    var ls := NmcliRows(rows);
    forall k | 0 <= k < |rows| ensures NoLineBreak(ls[k]) {
      ColonJoinNoLineBreak(rows[k].0, rows[k].1);
    }
  }

  lemma ColonJoinNoLineBreak(a: string, b: string)
    requires NoLineBreak(a) && NoLineBreak(b)
    ensures NoLineBreak(a + ":" + b)
  {
    var s := a + ":" + b;
    forall i | 0 <= i < |s| ensures !IsLineBreak(s[i]) {
      if i < |a| {
        assert s[i] == a[i];
      } else if i > |a| {
        assert s[i] == b[i - |a| - 1];
      }
    }
  }

  lemma {:induction false} HarvestNmcliRows(rows: seq<(string, string)>)
    requires forall k | 0 <= k < |rows| ::
               && ':' !in rows[k].0
               && (rows[k].0 != [] ==> !IsSpace(rows[k].0[0]) && !IsSpace(rows[k].0[|rows[k].0| - 1]))
    ensures Harvest(NmcliRows(rows), NmcliLine) == Connected(rows)
  {
    if rows != [] {
      var ls := NmcliRows(rows);
      assert ls[0] == rows[0].0 + ":" + rows[0].1;
      NmcliRowReadsName(rows[0].0, rows[0].1);
      assert ls[1..] == NmcliRows(rows[1..]);
      HarvestNmcliRows(rows[1..]);
      HarvestCons(ls, NmcliLine);
    }
  }
}
