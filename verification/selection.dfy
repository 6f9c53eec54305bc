/** The decision rules of one cycle of `worker_main` (dns.py): collecting
    probe outcomes into the results dict, picking the fastest resolver,
    the bounded latency history, and applying a resolver to the
    interfaces, with the fallback list when that fails. */
module Selection {
  import opened Options

  // ---------------------------------------------------------------------
  // The results dict
  // ---------------------------------------------------------------------

  /** One `results[dns] = latency` entry. The dict is a sequence of entries
      in insertion order, as Python dicts iterate. */
  datatype Entry = Entry(dns: string, latency: nat)

  predicate DistinctKeys(rs: seq<Entry>) {
    forall i, j | 0 <= i < j < |rs| :: rs[i].dns != rs[j].dns
  }

  function Keys(rs: seq<Entry>): set<string> {
    set i | 0 <= i < |rs| :: rs[i].dns
  }

  lemma KeysCons(e: Entry, rs: seq<Entry>)
    ensures Keys([e] + rs) == {e.dns} + Keys(rs)
  {
    var t := [e] + rs;
    forall d | d in Keys(rs) ensures d in Keys(t) {
      var i :| 0 <= i < |rs| && rs[i].dns == d;
      assert t[i + 1].dns == d;
    }
    assert t[0].dns == e.dns;
  }

  /** `results.get(d)`. */
  function Lookup(rs: seq<Entry>, d: string): (r: Option<nat>)
    ensures r.Some? <==> d in Keys(rs)
  {
    if rs == [] then None
    else if rs[0].dns == d then Some(rs[0].latency)
    else
      KeysCons(rs[0], rs[1..]);
      assert rs == [rs[0]] + rs[1..];
      Lookup(rs[1..], d)
  }

  /** In a dict without repeated keys each entry is what a lookup of its
      key finds. */
  lemma {:induction false} LookupEntry(rs: seq<Entry>, i: nat)
    requires DistinctKeys(rs) && i < |rs|
    ensures Lookup(rs, rs[i].dns) == Some(rs[i].latency)
  {
    if i > 0 {
      LookupEntry(rs[1..], i - 1);
    }
  }

  /** `results[k] = v`: an existing key keeps its place and takes the new
      value; a new key is appended. No other key's value changes and the
      existing keys keep their order. */
  function DictSet(rs: seq<Entry>, k: string, v: nat): (r: seq<Entry>)
    ensures Keys(r) == Keys(rs) + {k}
    ensures |rs| <= |r| && forall i | 0 <= i < |rs| :: r[i].dns == rs[i].dns
  {
    if rs == [] then
      KeysCons(Entry(k, v), []);
      [Entry(k, v)]
    else
      assert rs == [rs[0]] + rs[1..];
      KeysCons(rs[0], rs[1..]);
      if rs[0].dns == k then
        KeysCons(Entry(k, v), rs[1..]);
        [Entry(k, v)] + rs[1..]
      else
        var t := DictSet(rs[1..], k, v);
        KeysCons(rs[0], t);
        [rs[0]] + t
  }

  /** Storing a new key appends its entry; storing a present key keeps the
      length. */
  lemma {:induction false} DictSetGrows(rs: seq<Entry>, k: string, v: nat)
    ensures k in Keys(rs) ==> |DictSet(rs, k, v)| == |rs|
    ensures k !in Keys(rs) ==> DictSet(rs, k, v) == rs + [Entry(k, v)]
  {
    if rs != [] {
      assert rs == [rs[0]] + rs[1..];
      KeysCons(rs[0], rs[1..]);
      if rs[0].dns != k {
        DictSetGrows(rs[1..], k, v);
      }
    }
  }

  /** Storing a key keeps the keys distinct. */
  lemma DictSetDistinct(rs: seq<Entry>, k: string, v: nat)
    requires DistinctKeys(rs)
    ensures DistinctKeys(DictSet(rs, k, v))
  {
    var r := DictSet(rs, k, v);
    DictSetGrows(rs, k, v);
    if k in Keys(rs) {
      SameKeysDistinct(rs, r);
    } else {
      forall i | 0 <= i < |rs| ensures rs[i].dns != k {
        assert rs[i].dns in Keys(rs);
      }
    }
  }

  lemma SameKeysDistinct(rs: seq<Entry>, r: seq<Entry>)
    requires DistinctKeys(rs)
    requires |r| == |rs| && forall i | 0 <= i < |rs| :: r[i].dns == rs[i].dns
    ensures DistinctKeys(r)
  {
  }

  /** After `results[k] = v` a lookup of `k` finds `v` and a lookup of any
      other key finds what it found before. */
  lemma {:induction false} DictSetLookup(rs: seq<Entry>, k: string, v: nat, d: string)
    ensures Lookup(DictSet(rs, k, v), d) == if d == k then Some(v) else Lookup(rs, d)
  {
    if rs != [] && rs[0].dns != k {
      DictSetLookup(rs[1..], k, v, d);
    }
  }

  /** The outcome of one probe: the address and its latency, `None` when
      the probe produced none. */
  type Outcome = (string, Option<nat>)

  /** Some probe of `d` among `outcomes` gave a latency. */
  predicate Answered(outcomes: seq<Outcome>, d: string) {
    exists i | 0 <= i < |outcomes| :: outcomes[i].0 == d && outcomes[i].1.Some?
  }

  lemma AnsweredSnoc(outcomes: seq<Outcome>, o: Outcome, d: string)
    ensures Answered(outcomes + [o], d) <==> Answered(outcomes, d) || (o.0 == d && o.1.Some?)
  {
    var all := outcomes + [o];
    if Answered(all, d) {
      var i :| 0 <= i < |all| && all[i].0 == d && all[i].1.Some?;
      if i < |outcomes| {
        assert outcomes[i] == all[i];
      }
    }
    if Answered(outcomes, d) {
      var i :| 0 <= i < |outcomes| && outcomes[i].0 == d && outcomes[i].1.Some?;
      assert all[i] == outcomes[i];
    }
    if o.0 == d && o.1.Some? {
      assert all[|outcomes|] == o;
    }
  }

  /** The collection loop over finished probes: every outcome with a
      latency is stored with `results[dns] = latency`. */
  function Collect(outcomes: seq<Outcome>): (r: seq<Entry>)
    ensures DistinctKeys(r)
    ensures forall d :: d in Keys(r) <==> Answered(outcomes, d)
  {
    if outcomes == [] then []
    else
      var init := outcomes[..|outcomes| - 1];
      var o := outcomes[|outcomes| - 1];
      var r := Collect(init);
      assert outcomes == init + [o];
      assert forall d :: Answered(outcomes, d) <==> Answered(init, d) || (o.0 == d && o.1.Some?) by {
        forall d ensures Answered(outcomes, d) <==> Answered(init, d) || (o.0 == d && o.1.Some?) {
          AnsweredSnoc(init, o, d);
        }
      }
      if o.1.Some? then
        DictSetDistinct(r, o.0, o.1.value);
        DictSet(r, o.0, o.1.value)
      else r
  }

  /** Reference reading of the results dict: the latency the last
      successful probe of `d` reported. */
  function LastLatency(outcomes: seq<Outcome>, d: string): Option<nat> {
    if outcomes == [] then None
    else
      var (e, l) := outcomes[|outcomes| - 1];
      if e == d && l.Some? then l else LastLatency(outcomes[..|outcomes| - 1], d)
  }

  /** Each address's stored latency is the one its last successful probe
      reported; an address no probe of which succeeded is absent. */
  lemma {:induction false} CollectKeepsLastLatency(outcomes: seq<Outcome>, d: string)
    ensures Lookup(Collect(outcomes), d) == LastLatency(outcomes, d)
  {
    if outcomes != [] {
      var init := outcomes[..|outcomes| - 1];
      CollectKeepsLastLatency(init, d);
      var (e, l) := outcomes[|outcomes| - 1];
      if l.Some? {
        DictSetLookup(Collect(init), e, l.value, d);
      }
    }
  }

  /** Probing the candidates one after another, as the model runs the
      worker pool: the outcomes in candidate order. */
  function ProbeAll(candidates: seq<string>, probe: string -> Option<nat>): (r: seq<Outcome>)
    ensures |r| == |candidates|
    ensures forall i | 0 <= i < |r| :: r[i] == (candidates[i], probe(candidates[i]))
  {
    if candidates == [] then [] else [(candidates[0], probe(candidates[0]))] + ProbeAll(candidates[1..], probe)
  }

  /** The results dict of a probe round holds exactly the candidates whose
      probe gave a latency, each with that latency. */
  lemma ProbeAllResults(candidates: seq<string>, probe: string -> Option<nat>, d: string)
    ensures Lookup(Collect(ProbeAll(candidates, probe)), d) == (if d in candidates then probe(d) else None)
  {
    var outs := ProbeAll(candidates, probe);
    CollectKeepsLastLatency(outs, d);
    LastLatencyOfProbes(candidates, probe, d);
  }

  lemma {:induction false} LastLatencyOfProbes(candidates: seq<string>, probe: string -> Option<nat>, d: string)
    ensures LastLatency(ProbeAll(candidates, probe), d) == (if d in candidates then probe(d) else None)
  {
    if candidates != [] {
      var n := |candidates|;
      var init, last := candidates[..n - 1], candidates[n - 1];
      assert candidates == init + [last];
      ProbeAllSnoc(init, last, probe);
      LastLatencySnoc(ProbeAll(init, probe), (last, probe(last)), d);
      LastLatencyOfProbes(init, probe, d);
      assert d in candidates <==> d in init || d == last;
    }
  }

  lemma LastLatencySnoc(outcomes: seq<Outcome>, o: Outcome, d: string)
    ensures LastLatency(outcomes + [o], d) == if o.0 == d && o.1.Some? then o.1 else LastLatency(outcomes, d)
  {
    assert (outcomes + [o])[..|outcomes|] == outcomes;
  }

  lemma ProbeAllSnoc(init: seq<string>, last: string, probe: string -> Option<nat>)
    ensures ProbeAll(init + [last], probe) == ProbeAll(init, probe) + [(last, probe(last))]
  {
  }

  /** Storing the value a key already holds leaves the dict unchanged. */
  lemma {:induction false} DictSetSame(rs: seq<Entry>, k: string, v: nat)
    requires Lookup(rs, k) == Some(v)
    ensures DictSet(rs, k, v) == rs
  {
    if rs[0].dns != k {
      DictSetSame(rs[1..], k, v);
    }
  }

  /** Probing again addresses that were already probed changes nothing in
      the results dict, when each address gives the same answer every time. */
  lemma {:induction false} CollectIgnoresRepeats(x: seq<string>, y: seq<string>, probe: string -> Option<nat>)
    requires forall e | e in y :: e in x
    ensures Collect(ProbeAll(x + y, probe)) == Collect(ProbeAll(x, probe))
  {
    if y == [] {
      assert x + y == x;
    } else {
      var init, e := y[..|y| - 1], y[|y| - 1];
      assert x + y == (x + init) + [e];
      assert forall a | a in init :: a in y;
      CollectIgnoresRepeats(x, init, probe);
      ProbeAllSnoc(x + init, e, probe);
      var outs := ProbeAll(x + init, probe) + [(e, probe(e))];
      assert outs[..|outs| - 1] == ProbeAll(x + init, probe);
      if probe(e).Some? {
        assert e in y;
        ProbeAllResults(x, probe, e);
        DictSetSame(Collect(ProbeAll(x, probe)), e, probe(e).value);
      }
    }
  }

  // ---------------------------------------------------------------------
  // Choosing the fastest resolver
  // ---------------------------------------------------------------------

  /** `min(results, key=results.get)`: the position of the first entry, in
      iteration order, with the least latency. */
  function BestIndex(rs: seq<Entry>): (k: nat)
    requires |rs| > 0
    ensures k < |rs|
    ensures forall i | 0 <= i < |rs| :: rs[k].latency <= rs[i].latency
    ensures forall i | 0 <= i < k :: rs[k].latency < rs[i].latency
  {
    if |rs| == 1 then 0
    else
      var j := BestIndex(rs[..|rs| - 1]);
      if rs[|rs| - 1].latency < rs[j].latency then |rs| - 1 else j
  }

  /** The chosen resolver is a key of the results, the stored best latency
      is its own entry, and no key has a lower latency. */
  lemma BestIsMinimum(rs: seq<Entry>)
    requires |rs| > 0 && DistinctKeys(rs)
    ensures var k := BestIndex(rs);
      && rs[k].dns in Keys(rs)
      && Lookup(rs, rs[k].dns) == Some(rs[k].latency)
      && forall d | d in Keys(rs) :: rs[k].latency <= Lookup(rs, d).value
  {
    var k := BestIndex(rs);
    LookupEntry(rs, k);
    forall d | d in Keys(rs) ensures rs[k].latency <= Lookup(rs, d).value {
      var i :| 0 <= i < |rs| && rs[i].dns == d;
      LookupEntry(rs, i);
    }
  }

  // ---------------------------------------------------------------------
  // The latency history shown on the dashboard
  // ---------------------------------------------------------------------

  const HistoryCapacity := 100

  /** One `{"time": ..., "latency": ...}` history point. */
  datatype Sample = Sample(time: string, latency: nat)

  /** Appending a sample and popping the oldest one once the history holds
      more than 100: the new sample is last, the earlier ones keep their
      order, at most the single oldest is dropped (exactly when the
      history was full), and a history within capacity stays within it. */
  function PushHistory(h: seq<Sample>, s: Sample): (r: seq<Sample>)
    ensures |h| <= HistoryCapacity ==> |r| <= HistoryCapacity
    ensures |r| > 0 && r[|r| - 1] == s
    ensures |h| <= |r| <= |h| + 1
    ensures r[..|r| - 1] == h[|h| + 1 - |r|..]
    ensures |r| == |h| <==> |h| >= HistoryCapacity
  {
    var g := h + [s];
    assert g[..|h|] == h;
    if |g| > HistoryCapacity then g[1..] else g
  }

  /** The history after pushing `samples` one by one. */
  function PushAll(h: seq<Sample>, samples: seq<Sample>): seq<Sample> {
    if samples == [] then h
    else PushHistory(PushAll(h, samples[..|samples| - 1]), samples[|samples| - 1])
  }

  /** The history is a bounded FIFO: after any run of pushes it holds the
      newest samples, the last 100 of everything ever pushed. */
  lemma {:induction false} PushAllKeepsNewest(h: seq<Sample>, samples: seq<Sample>)
    requires |h| <= HistoryCapacity
    ensures PushAll(h, samples) == Newest(h + samples)
  {
    if samples != [] {
      var init := samples[..|samples| - 1];
      var s := samples[|samples| - 1];
      assert samples == init + [s];
      calc {
        PushAll(h, samples);
        PushHistory(PushAll(h, init), s);
        { PushAllKeepsNewest(h, init); }
        PushHistory(Newest(h + init), s);
        { NewestPush(h + init, s); }
        Newest((h + init) + [s]);
        { assert (h + init) + [s] == h + samples; }
        Newest(h + samples);
      }
    }
  }

  /** The last (at most) 100 elements of `all`. */
  function Newest(all: seq<Sample>): seq<Sample> {
    if |all| <= HistoryCapacity then all else all[|all| - HistoryCapacity..]
  }

  lemma NewestPush(all: seq<Sample>, s: Sample)
    ensures PushHistory(Newest(all), s) == Newest(all + [s])
  {
    var n := Newest(all);
    if |all| > HistoryCapacity {
      assert (n + [s])[1..] == (all + [s])[|all + [s]| - HistoryCapacity..];
    }
  }

  // ---------------------------------------------------------------------
  // Applying a resolver to the interfaces
  // ---------------------------------------------------------------------

  /** A `set_dns_on_interface(iface, dns)` call. */
  datatype SetCall = SetCall(iface: string, dns: string)

  /** Whether some interface accepts `dns`. */
  predicate AcceptedBySome(ifaces: seq<string>, dns: string, accepts: (string, string) -> bool) {
    exists i | 0 <= i < |ifaces| :: accepts(ifaces[i], dns)
  }

  /** The switching loop: `dns` is set on every interface, and the switch
      succeeds when at least one of them accepted it. */
  function SetOnAll(ifaces: seq<string>, dns: string, accepts: (string, string) -> bool): (r: (seq<SetCall>, bool))
    ensures |r.0| == |ifaces| && forall i | 0 <= i < |ifaces| :: r.0[i] == SetCall(ifaces[i], dns)
    ensures r.1 <==> AcceptedBySome(ifaces, dns, accepts)
  {
    if ifaces == [] then ([], false)
    else
      var (calls, ok) := SetOnAll(ifaces[1..], dns, accepts);
      ([SetCall(ifaces[0], dns)] + calls, accepts(ifaces[0], dns) || ok)
  }

  /** The inner fallback loop: `dns` is offered to the interfaces in order
      until one accepts it (`break`). */
  function SetUntilAccepted(ifaces: seq<string>, dns: string, accepts: (string, string) -> bool): (r: (seq<SetCall>, bool))
    ensures r.1 <==> AcceptedBySome(ifaces, dns, accepts)
    ensures |r.0| <= |ifaces| && forall i | 0 <= i < |r.0| :: r.0[i] == SetCall(ifaces[i], dns)
    ensures ifaces != [] ==> |r.0| > 0
    ensures forall i | 0 <= i < |r.0| - 1 :: !accepts(ifaces[i], dns)
    ensures !r.1 ==> |r.0| == |ifaces|
  {
    if ifaces == [] then ([], false)
    else if accepts(ifaces[0], dns) then ([SetCall(ifaces[0], dns)], true)
    else
      var (calls, ok) := SetUntilAccepted(ifaces[1..], dns, accepts);
      ([SetCall(ifaces[0], dns)] + calls, ok)
  }

  /** The outer fallback loop. Its `break` leaves only the inner loop, so
      every fallback address is offered in turn and the current resolver
      ends as the last one some interface accepted, or unchanged when none
      was accepted. */
  function Fallback(fallbacks: seq<string>, ifaces: seq<string>, accepts: (string, string) -> bool, current: string): (r: (string, seq<SetCall>))
    ensures r.0 == current || (r.0 in fallbacks && AcceptedBySome(ifaces, r.0, accepts))
    ensures (forall f | f in fallbacks :: !AcceptedBySome(ifaces, f, accepts)) ==> r.0 == current
    ensures ifaces != [] ==> forall f | f in fallbacks :: SetCall(ifaces[0], f) in r.1
  {
    if fallbacks == [] then (current, [])
    else
      var (calls, ok) := SetUntilAccepted(ifaces, fallbacks[0], accepts);
      var next := if ok then fallbacks[0] else current;
      var (final, rest) := Fallback(fallbacks[1..], ifaces, accepts, next);
      assert ifaces != [] ==> calls[0] == SetCall(ifaces[0], fallbacks[0]);
      (final, calls + rest)
  }

  /** Reference reading of the fallback outcome: the last fallback address
      that some interface accepts, or `current` when there is none. */
  function LastAccepted(fallbacks: seq<string>, ifaces: seq<string>, accepts: (string, string) -> bool, current: string): string {
    if fallbacks == [] then current
    else if AcceptedBySome(ifaces, fallbacks[|fallbacks| - 1], accepts) then fallbacks[|fallbacks| - 1]
    else LastAccepted(fallbacks[..|fallbacks| - 1], ifaces, accepts, current)
  }

  lemma {:induction false} LastAcceptedAppend(a: seq<string>, b: seq<string>, ifaces: seq<string>, accepts: (string, string) -> bool, current: string)
    ensures LastAccepted(a + b, ifaces, accepts, current) == LastAccepted(b, ifaces, accepts, LastAccepted(a, ifaces, accepts, current))
    decreases |b|
  {
    if b == [] {
      assert a + b == a;
    } else {
      var b' := b[..|b| - 1];
      assert (a + b)[..|a + b| - 1] == a + b';
      LastAcceptedAppend(a, b', ifaces, accepts, current);
    }
  }

  /** The fallback loop ends on the last accepted fallback address. */
  lemma {:induction false} FallbackIsLastAccepted(fallbacks: seq<string>, ifaces: seq<string>, accepts: (string, string) -> bool, current: string)
    ensures Fallback(fallbacks, ifaces, accepts, current).0 == LastAccepted(fallbacks, ifaces, accepts, current)
  {
    if fallbacks != [] {
      var f := fallbacks[0];
      var next := if AcceptedBySome(ifaces, f, accepts) then f else current;
      FallbackIsLastAccepted(fallbacks[1..], ifaces, accepts, next);
      assert fallbacks == [f] + fallbacks[1..];
      LastAcceptedAppend([f], fallbacks[1..], ifaces, accepts, current);
      assert [f][..0] == [];
    }
  }
}
