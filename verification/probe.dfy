/** One resolver's latency: reading the round-trip time out of `ping`'s
    output (`ping_once`), the timeout passed to `ping`, and the median of
    the successful samples (`test_host_latency`), all in dns.py. Latencies
    are whole milliseconds. */
module Probe {
  import opened Options
  import opened Text

  // ---------------------------------------------------------------------
  // Parsing ping output
  // ---------------------------------------------------------------------

  /** Where the pattern `time[=<]?\s?(\d+\.?\d*)` matches when it is tried
      at position `i` of `out`, the integer part of the captured number.
      Neither optional item can give back a character that would let the
      digits match, so the pattern matches at `i` exactly when "time" is
      followed, after at most one `=`/`<` and at most one whitespace
      character, by a digit; `int(float(...))` of the capture is the value
      of its leading digit run. */
  function MatchAt(out: string, i: nat): (r: Option<nat>)
    requires i <= |out|
  {
    if !("time" <= out[i..]) then None
    else
      var j0 := i + 4;
      var j1 := if j0 < |out| && (out[j0] == '=' || out[j0] == '<') then j0 + 1 else j0;
      var j2 := if j1 < |out| && IsSpace(out[j1]) then j1 + 1 else j1;
      var n := DigitLength(out[j2..]);
      if n == 0 then None else Some(DigitsValue(out[j2..][..n]))
  }

  /** `re.search`: the leftmost position at or after `from` where the
      pattern matches, if any. */
  function FirstMatch(out: string, from: nat): (p: Option<nat>)
    requires from <= |out|
    ensures p.Some? ==> from <= p.value <= |out| && MatchAt(out, p.value).Some?
    ensures p.Some? ==> forall q | from <= q < p.value :: MatchAt(out, q).None?
    ensures p.None? ==> forall q | from <= q <= |out| :: MatchAt(out, q).None?
    decreases |out| - from
  {
    if MatchAt(out, from).Some? then Some(from)
    else if from == |out| then None
    else FirstMatch(out, from + 1)
  }

  /** `ping_once` on the captured output of a ping that ran: the integer
      part of the first number matched after "time"; failing that, 1 when
      the output mentions "<1"; otherwise no latency. */
  function PingParse(out: string): Option<nat> {
    match FirstMatch(out, 0)
    case Some(p) => MatchAt(out, p)
    case None => if Contains(out, "<1") then Some(1) else None
  }

  /** What the parse reads: the capture at the leftmost position where the
      pattern matches; with no match anywhere, 1 when the output mentions
      "<1" and otherwise nothing. */
  lemma PingParseLeftmost(out: string)
    ensures (exists p | 0 <= p <= |out| :: MatchAt(out, p).Some?) ==>
              exists p | 0 <= p <= |out| :: MatchAt(out, p).Some? && PingParse(out) == MatchAt(out, p)
                                          && forall q | 0 <= q < p :: MatchAt(out, q).None?
    ensures (forall p | 0 <= p <= |out| :: MatchAt(out, p).None?) ==>
              PingParse(out) == (if Contains(out, "<1") then Some(1) else None)
  {
  }

  /** `ping_once` as a whole: `None` for a ping that raised or timed out,
      otherwise the parse of its output. */
  function PingOnce(output: Option<string>): Option<nat> {
    match output
    case None => None
    case Some(out) => PingParse(out)
  }

  /** Output that never says "time" and has no "<1" never yields a
      latency; with "<1" but no "time" it yields 1. */
  lemma PingParseWithoutTime(out: string)
    requires !Contains(out, "time")
    ensures PingParse(out) == (if Contains(out, "<1") then Some(1) else None)
  {
    forall p | 0 <= p <= |out| ensures MatchAt(out, p).None? {
    }
    PingParseLeftmost(out);
  }

  /** A reply line reporting `time=<n>` (optionally `time=<n>.<frac>`),
      preceded by text in which "time" does not start, reads back as `n`. */
  lemma PingParseReadsReply(pre: string, n: nat, post: string)
    requires !Contains(pre + "tim", "time")
    requires post == [] || !IsDigit(post[0])
    ensures PingParse(pre + "time=" + ShowNat(n) + post) == Some(n)
  {
    ReplyMatches(pre, n, post);
    PingParseFirst(pre + "time=" + ShowNat(n) + post, |pre|);
  }

  /** In such a line the pattern first matches where "time" starts, and
      captures `n` there. */
  lemma ReplyMatches(pre: string, n: nat, post: string)
    requires !Contains(pre + "tim", "time")
    requires post == [] || !IsDigit(post[0])
    ensures var out := pre + "time=" + ShowNat(n) + post;
            && |pre| <= |out| && MatchAt(out, |pre|) == Some(n)
            && forall q | 0 <= q < |pre| :: MatchAt(out, q).None?
  {
    var digits := ShowNat(n);
    var out := pre + "time=" + digits + post;
    Regroup(pre, digits + post);
    assert out == pre + "time=" + (digits + post);
    NoMatchInPrefix(pre, "e=" + digits + post, out);
    MatchAtReply(pre, n, post);
  }

  lemma Regroup(pre: string, x: string)
    ensures pre + "time=" + x == pre + "tim" + ("e=" + x)
  {
    assert "time=" == "tim" + "e=";
  }

  /** The parse reads the capture at the first position where the pattern
      matches. */
  lemma PingParseFirst(out: string, p: nat)
    requires p <= |out| && MatchAt(out, p).Some?
    requires forall q | 0 <= q < p :: MatchAt(out, q).None?
    ensures PingParse(out) == MatchAt(out, p)
  {
    FirstMatchFinds(out, 0, p);
  }

  /** No match starts inside `pre` when "time" does not start there. */
  lemma NoMatchInPrefix(pre: string, rest: string, out: string)
    requires !Contains(pre + "tim", "time")
    requires out == pre + "tim" + rest
    ensures forall q | 0 <= q < |pre| :: MatchAt(out, q).None?
  {
    var w := pre + "tim";
    forall q | 0 <= q < |pre| ensures MatchAt(out, q).None? {
      assert !("time" <= w[q..]);
      PrefixDecidesTime(w, rest, q);
    }
  }

  /** Whether "time" starts at `q` is decided by the first four characters
      from `q` on. */
  lemma PrefixDecidesTime(w: string, rest: string, q: nat)
    requires q + 4 <= |w|
    ensures ("time" <= (w + rest)[q..]) == ("time" <= w[q..])
  {
    assert (w + rest)[q..][..4] == w[q..][..4];
  }

  /** `FirstMatch` finds a match all of whose predecessors fail. */
  lemma {:induction false} FirstMatchFinds(out: string, from: nat, p: nat)
    requires from <= p <= |out|
    requires MatchAt(out, p).Some?
    requires forall q | from <= q < p :: MatchAt(out, q).None?
    ensures FirstMatch(out, from) == Some(p)
    decreases p - from
  {
    if from < p {
      FirstMatchFinds(out, from + 1, p);
    }
  }

  lemma MatchAtReply(pre: string, n: nat, post: string)
    requires post == [] || !IsDigit(post[0])
    ensures MatchAt(pre + "time=" + ShowNat(n) + post, |pre|) == Some(n)
  {
    var digits := ShowNat(n);
    var rest := "time=" + digits + post;
    var out := pre + "time=" + digits + post;
    assert out == pre + rest;
    assert out[|pre|..] == rest;
    MatchAtTimeEquals(out, |pre|, digits, post);
    ShowNatValue(n);
  }

  /** Where the output reads `time=` and then a digit run from `p` on, the
      pattern matches at `p` and captures that run. */
  lemma MatchAtTimeEquals(out: string, p: nat, digits: string, post: string)
    requires p <= |out| && out[p..] == "time=" + digits + post
    requires digits != [] && AllDigits(digits)
    requires post == [] || !IsDigit(post[0])
    ensures MatchAt(out, p) == Some(DigitsValue(digits))
  {
    var rest := out[p..];
    assert "time" <= rest by {
      assert rest[..4] == "time";
    }
    assert out[p + 4] == '=' by {
      assert rest[4] == '=';
    }
    assert out[p + 5..] == digits + post by {
      assert rest == "time=" + (digits + post);
      assert rest[5..] == digits + post;
      assert out[p + 5..] == rest[5..];
    }
    assert !IsSpace(out[p + 5]) by {
      assert out[p + 5] == digits[0];
      assert IsDigit(digits[0]);
    }
    DigitRunOf(digits, post);
    assert (digits + post)[..|digits|] == digits;
  }

  // ---------------------------------------------------------------------
  // The ping timeout
  // ---------------------------------------------------------------------

  /** Python's `int(a / b)` for `b > 0`: the quotient truncated toward zero. */
  function TruncDiv(a: int, b: int): int
    requires b > 0
  {
    if a >= 0 then a / b else -((-a) / b)
  }

  /** `max(1, int(timeout_ms / 1000))`, the whole-second timeout handed to
      `ping -W`/`-t`: at least one second, and otherwise the whole seconds
      contained in the millisecond timeout. */
  function TimeoutSeconds(timeoutMs: int): (r: int)
    ensures r >= 1
    ensures timeoutMs < 2000 ==> r == 1
    ensures timeoutMs >= 1000 ==> r * 1000 <= timeoutMs < (r + 1) * 1000
  {
    var t := TruncDiv(timeoutMs, 1000);
    if t < 1 then 1 else t
  }

  // ---------------------------------------------------------------------
  // Median of the samples
  // ---------------------------------------------------------------------

  predicate Sorted(s: seq<nat>) {
    forall i, j | 0 <= i < j < |s| :: s[i] <= s[j]
  }

  function Insert(x: nat, s: seq<nat>): (r: seq<nat>)
    requires Sorted(s)
    ensures Sorted(r)
    ensures multiset(r) == multiset(s) + multiset{x}
  {
    if s == [] then [x]
    else if x <= s[0] then [x] + s
    else
      var t := Insert(x, s[1..]);
      assert s == [s[0]] + s[1..];
      LowerBoundOfInsert(s[0], x, s[1..], t);
      SortedCons(s[0], t);
      assert multiset([s[0]] + t) == multiset{s[0]} + multiset(t);
      [s[0]] + t
  }

  lemma SortedCons(b: nat, t: seq<nat>)
    requires Sorted(t) && forall k | 0 <= k < |t| :: b <= t[k]
    ensures Sorted([b] + t)
  {
    var r := [b] + t;
    forall i, j | 0 <= i < j < |r| ensures r[i] <= r[j] {
      assert r[j] == t[j - 1];
      if i > 0 {
        assert r[i] == t[i - 1];
      }
    }
  }

  /** A bound below `x` and below every element of `s` is below every
      element of any `t` with the elements of `s` and `x`. */
  lemma LowerBoundOfInsert(b: nat, x: nat, s: seq<nat>, t: seq<nat>)
    requires b <= x
    requires forall k | 0 <= k < |s| :: b <= s[k]
    requires multiset(t) == multiset(s) + multiset{x}
    ensures forall k | 0 <= k < |t| :: b <= t[k]
  {
    forall k | 0 <= k < |t| ensures b <= t[k] {
      assert t[k] in multiset(t);
      if t[k] != x {
        assert t[k] in multiset(s);
      }
    }
  }

  /** `sorted(s)`: the samples in ascending order. */
  function Sort(s: seq<nat>): (r: seq<nat>)
    ensures Sorted(r)
    ensures multiset(r) == multiset(s)
  {
    if s == [] then []
    else
      assert s == [s[0]] + s[1..];
      Insert(s[0], Sort(s[1..]))
  }

  /** Two ascending sequences with the same elements are equal. */
  lemma {:induction false} SortedUnique(a: seq<nat>, b: seq<nat>)
    requires Sorted(a) && Sorted(b)
    requires multiset(a) == multiset(b)
    ensures a == b
  {
    if a == [] {
      assert |multiset(b)| == 0;
    } else {
      assert |b| == |multiset(b)| == |multiset(a)| == |a|;
      SortedHeadIsLeast(a, b);
      SortedHeadIsLeast(b, a);
      assert a[0] == b[0];
      assert a == [a[0]] + a[1..];
      assert b == [b[0]] + b[1..];
      assert multiset(a) == multiset{a[0]} + multiset(a[1..]);
      assert multiset(b) == multiset{b[0]} + multiset(b[1..]);
      assert multiset(a[1..]) == multiset(a) - multiset{a[0]};
      assert multiset(b[1..]) == multiset(b) - multiset{b[0]};
      SortedUnique(a[1..], b[1..]);
    }
  }

  /** The head of an ascending sequence is at most every element of any
      sequence with the same elements. */
  lemma SortedHeadIsLeast(a: seq<nat>, b: seq<nat>)
    requires Sorted(a) && a != [] && b != []
    requires multiset(a) == multiset(b)
    ensures a[0] <= b[0]
  {
    assert b[0] in multiset(a);
    var j :| 0 <= j < |a| && a[j] == b[0];
  }

  /** `int(statistics.median(s))`: the middle sample of the sorted samples,
      or the truncated mean of the two middle ones for an even count. */
  function Median(s: seq<nat>): nat
    requires |s| > 0
  {
    var t := Sort(s);
    var n := |t|;
    if n % 2 == 1 then t[n / 2] else (t[n / 2 - 1] + t[n / 2]) / 2
  }

  /** The median lies between the smallest and the largest sample, and for
      an odd count it is one of the samples. */
  lemma MedianBounds(s: seq<nat>)
    requires |s| > 0
    ensures exists i | 0 <= i < |s| :: s[i] <= Median(s)
    ensures exists j | 0 <= j < |s| :: Median(s) <= s[j]
    ensures |s| % 2 == 1 ==> Median(s) in s
  {
    var t := Sort(s);
    var n := |t|;
    assert |t| == |multiset(t)| == |multiset(s)| == |s|;
    var lo := if n % 2 == 1 then n / 2 else n / 2 - 1;
    var hi := n / 2;
    assert t[lo] in multiset(s) && t[hi] in multiset(s);
    assert t[lo] <= Median(s) <= t[hi];
  }

  /** The median depends only on which samples were taken, not on the
      order in which they arrived. */
  lemma MedianPermutation(a: seq<nat>, b: seq<nat>)
    requires |a| > 0
    requires multiset(a) == multiset(b)
    ensures |b| > 0 && Median(a) == Median(b)
  {
    assert |b| == |multiset(b)| == |multiset(a)| == |a|;
    SortByElements(a, b);
  }

  /** Sorting depends only on the elements. */
  lemma SortByElements(a: seq<nat>, b: seq<nat>)
    requires multiset(a) == multiset(b)
    ensures Sort(a) == Sort(b)
  {
    SortedUnique(Sort(a), Sort(b));
  }

  // ---------------------------------------------------------------------
  // test_host_latency
  // ---------------------------------------------------------------------

  /** `max(1, int(ping_count))`: how many pings a probe sends. */
  function PingAttempts(pingCount: int): (n: nat)
    ensures n >= 1
    ensures pingCount >= 1 ==> n == pingCount
  {
    if pingCount < 1 then 1 else pingCount
  }

  /** The latencies of the successful pings among `results`, in order. */
  function Successes(results: seq<Option<nat>>): seq<nat> {
    if results == [] then []
    else
      var init := Successes(results[..|results| - 1]);
      match results[|results| - 1]
      case Some(v) => init + [v]
      case None => init
  }

  /** The kept latencies are exactly the values of the successful pings,
      and there are no more of them than pings. */
  lemma {:induction false} SuccessesMembers(results: seq<Option<nat>>)
    ensures |Successes(results)| <= |results|
    ensures forall v :: v in Successes(results) <==> Some(v) in results
  {
    if results != [] {
      var init := results[..|results| - 1];
      SuccessesMembers(init);
      assert results == init + [results[|results| - 1]];
    }
  }

  /** The outcomes of the first `k` pings, in order, where `outputs(a)` is
      what the `a`-th ping printed (`None` when it raised or timed out). */
  function Outcomes(outputs: nat -> Option<string>, k: nat): seq<Option<nat>> {
    if k == 0 then [] else Outcomes(outputs, k - 1) + [PingOnce(outputs(k - 1))]
  }

  /** One more ping's success adds its latency to the successes. */
  lemma OutcomesStep(outputs: nat -> Option<string>, k: nat)
    ensures Successes(Outcomes(outputs, k + 1)) ==
            Successes(Outcomes(outputs, k)) + (if PingOnce(outputs(k)).Some? then [PingOnce(outputs(k)).value] else [])
  {
    var o := Outcomes(outputs, k + 1);
    assert o[..|o| - 1] == Outcomes(outputs, k);
  }

  /** The ping loop of `test_host_latency`: `n` pings, keeping the latency
      of each one that succeeded, in order. */
  method SendPings(outputs: nat -> Option<string>, n: nat) returns (latencies: seq<nat>)
    ensures latencies == Successes(Outcomes(outputs, n))
  {
    latencies := [];
    var k := 0;
    while k < n
      invariant 0 <= k <= n
      invariant latencies == Successes(Outcomes(outputs, k))
    {
      var l := PingOnce(outputs(k));
      OutcomesStep(outputs, k);
      if l.Some? {
        latencies := latencies + [l.value];
      }
      k := k + 1;
    }
  }

  /** `test_host_latency`: sends `PingAttempts(pingCount)` pings (at least
      one); when any succeeded the result is the truncated median of exactly
      the successful samples, which lies between their least and greatest;
      otherwise it is the outcome of the HTTP fallback probe `http`. */
  method TestHostLatency(pingCount: int, outputs: nat -> Option<string>, http: Option<nat>)
    returns (r: Option<nat>, attempts: nat)
    ensures attempts >= 1 && attempts == PingAttempts(pingCount)
    ensures var samples := Successes(Outcomes(outputs, attempts));
      && (samples != [] ==> r == Some(Median(samples)))
      && (samples != [] ==>
            && (exists i | 0 <= i < |samples| :: samples[i] <= r.value)
            && (exists j | 0 <= j < |samples| :: r.value <= samples[j]))
      && (samples == [] ==> r == http)
  {
    attempts := PingAttempts(pingCount);
    var latencies := SendPings(outputs, attempts);
    if latencies != [] {
      r := Some(Median(latencies));
      MedianBounds(latencies);
    } else {
      r := http;
    }
  }
}
