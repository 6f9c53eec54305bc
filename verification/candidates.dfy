/** The list of resolvers probed each cycle: the master IPv4 and IPv6
    lists unioned with the user's custom entries (`build_dns_list`,
    dns.py), and the per-cycle candidate list of `worker_main`. */
module Candidates {
  import opened Text

  const Ipv4Master: seq<string> := [
    "8.8.8.8", "8.8.4.4", "1.1.1.1", "1.0.0.1", "9.9.9.9", "149.112.112.112",
    "208.67.222.222", "208.67.220.220", "8.26.56.26", "8.20.247.20",
    "185.228.168.9", "185.228.169.9", "94.140.14.14", "94.140.15.15",
    "84.200.69.80", "84.200.70.40", "77.88.8.8", "77.88.8.1",
    "4.2.2.1", "4.2.2.2", "37.235.1.174", "37.235.1.177",
    "76.76.19.19", "76.223.122.150", "94.247.43.254", "38.132.106.139", "199.85.126.10",
    "64.6.64.6", "64.6.65.6", "156.154.70.1", "156.154.71.1", "185.121.177.177",
    "198.101.242.72", "195.46.39.39", "192.71.245.208", "216.87.84.211",
    "178.22.122.100", "45.90.28.0", "45.90.30.0", "1.1.1.2", "1.0.0.2"
  ]

  const Ipv6Master: seq<string> := [
    "2606:4700:4700::1111", "2606:4700:4700::1001", "2001:4860:4860::8888", "2001:4860:4860::8844",
    "2620:fe::fe", "2620:fe::9", "2a0d:2a00:1::1", "2a0d:2a00:2::2",
    "2a01:4f8:fff0:200::2", "2a01:4f8:fff0:200::3"
  ]

  /** The address-family test used throughout: an address is IPv6 when it
      contains a colon. */
  predicate IsIpv6(d: string) {
    ':' in d
  }

  predicate NoDups<T(==)>(s: seq<T>) {
    forall i, j | 0 <= i < j < |s| :: s[i] != s[j]
  }

  /** Position of the first occurrence of `x` in `s`. */
  function FirstIndex<T(==)>(s: seq<T>, x: T): (k: nat)
    requires x in s
    ensures k < |s| && s[k] == x
    ensures forall j | 0 <= j < k :: s[j] != x
  {
    if s[0] == x then 0 else 1 + FirstIndex(s[1..], x)
  }

  /** `list(dict.fromkeys(s))`: the distinct elements of `s`, each at the
      place of its first occurrence. The result has no duplicates and holds
      exactly the elements of `s`; `DedupOrder` shows it lists them in the
      order of their first occurrences in `s`. */
  function Dedup<T(==,!new)>(s: seq<T>): (r: seq<T>)
    ensures NoDups(r)
    ensures forall x :: x in r <==> x in s
  {
    if s == [] then []
    else
      var d := Dedup(s[..|s| - 1]);
      var last := s[|s| - 1];
      if last in d then d else d + [last]
  }

  /** The deduplicated list keeps the order of first occurrences. */
  lemma {:induction false} DedupOrder<T(!new)>(s: seq<T>)
    ensures forall i, j | 0 <= i < j < |Dedup(s)| :: FirstIndex(s, Dedup(s)[i]) < FirstIndex(s, Dedup(s)[j])
  {
    if s != [] {
      var init, last := s[..|s| - 1], s[|s| - 1];
      assert s == init + [last];
      DedupOrder(init);
      var d := Dedup(init);
      forall x | x in init ensures FirstIndex(s, x) == FirstIndex(init, x) {
        FirstIndexOfPrefix(init, [last], x);
      }
      if last !in d {
        assert last !in init;
        assert FirstIndex(s, last) == |s| - 1;
        var r := Dedup(s);
        assert r == d + [last];
        forall i, j | 0 <= i < j < |r| ensures FirstIndex(s, r[i]) < FirstIndex(s, r[j]) {
          assert r[i] == d[i] && r[i] in init;
          if j < |d| {
            assert r[j] == d[j] && r[j] in init;
          }
        }
      }
    }
  }

  lemma {:induction false} FirstIndexOfPrefix<T>(a: seq<T>, b: seq<T>, x: T)
    requires x in a
    ensures x in a + b && FirstIndex(a + b, x) == FirstIndex(a, x)
  {
    if a[0] != x {
      assert (a + b)[1..] == a[1..] + b;
      FirstIndexOfPrefix(a[1..], b, x);
    }
  }

  /** Deduplicating a list that has no duplicates leaves it unchanged. */
  lemma {:induction false} DedupOfDistinct<T(!new)>(s: seq<T>)
    requires NoDups(s)
    ensures Dedup(s) == s
  {
    if s != [] {
      var init := s[..|s| - 1];
      DedupOfDistinct(init);
      assert s[|s| - 1] !in init;
      assert init + [s[|s| - 1]] == s;
    }
  }

  /** Appending elements never disturbs the deduplication of what came
      before: `Dedup(a)` is a prefix of `Dedup(a + b)`. */
  lemma {:induction false} DedupPrefix<T(!new)>(a: seq<T>, b: seq<T>)
    ensures |Dedup(a)| <= |Dedup(a + b)|
    ensures Dedup(a + b)[..|Dedup(a)|] == Dedup(a)
    decreases |b|
  {
    if b == [] {
      assert a + b == a;
    } else {
      var b' := b[..|b| - 1];
      DedupPrefix(a, b');
      assert (a + b)[..|a + b| - 1] == a + b';
    }
  }

  function Filter(s: seq<string>, ipv6: bool): (r: seq<string>)
    ensures forall x :: x in r <==> x in s && IsIpv6(x) == ipv6
  {
    if s == [] then []
    else (if IsIpv6(s[0]) == ipv6 then [s[0]] else []) + Filter(s[1..], ipv6)
  }

  /** `build_dns_list` over explicit master lists and custom entries:
      each custom entry joins the IPv4 or the IPv6 list according to
      whether it contains a colon, and each list is deduplicated keeping
      first occurrences. */
  function BuildLists(master4: seq<string>, master6: seq<string>, custom: seq<string>): (r: (seq<string>, seq<string>))
    ensures NoDups(r.0) && NoDups(r.1)
    ensures forall x :: x in r.0 <==> x in master4 || (x in custom && !IsIpv6(x))
    ensures forall x :: x in r.1 <==> x in master6 || (x in custom && IsIpv6(x))
  {
    (Dedup(master4 + Filter(custom, false)), Dedup(master6 + Filter(custom, true)))
  }

  /** `build_dns_list` on the built-in master lists: both lists are free of
      duplicates, the IPv4 list holds no colon address and every IPv4
      master address, the IPv6 list starts with the whole IPv6 master
      list in order and holds only colon addresses, and each custom entry
      lands in exactly the list its colon test picks. Both lists start
      with their whole master list, in order. */
  function BuildDnsList(custom: seq<string>): (r: (seq<string>, seq<string>))
    ensures NoDups(r.0) && NoDups(r.1)
    ensures forall x | x in r.0 :: !IsIpv6(x)
    ensures forall x | x in r.1 :: IsIpv6(x)
    ensures |Ipv4Master| <= |r.0| && r.0[..|Ipv4Master|] == Ipv4Master
    ensures |Ipv6Master| <= |r.1| && r.1[..|Ipv6Master|] == Ipv6Master
    ensures forall x | x in custom :: (x in r.0 <==> !IsIpv6(x)) && (x in r.1 <==> IsIpv6(x))
  {
    MastersWellFormed();
    Ipv4MasterDistinct();
    Ipv6MasterDistinct();
    BuildListsSorts(Ipv4Master, Ipv6Master, custom);
    BuildLists(Ipv4Master, Ipv6Master, custom)
  }

  predicate WellFormedMasters(master4: seq<string>, master6: seq<string>) {
    && (forall i | 0 <= i < |master4| :: !IsIpv6(master4[i]))
    && (forall i | 0 <= i < |master6| :: IsIpv6(master6[i]))
  }

  /** With well-formed master lists, the IPv4 list starts with the
      deduplicated IPv4 master list (the whole list, in order, when it has
      no duplicates) and holds no colon address, the IPv6 list likewise
      starts with the IPv6 master list and holds only colon addresses, and
      every custom entry lands in exactly one of the two. */
  lemma {:induction false} BuildListsSorts(master4: seq<string>, master6: seq<string>, custom: seq<string>)
    requires WellFormedMasters(master4, master6)
    ensures var (v4, v6) := BuildLists(master4, master6, custom);
      && |Dedup(master4)| <= |v4| && v4[..|Dedup(master4)|] == Dedup(master4)
      && |Dedup(master6)| <= |v6| && v6[..|Dedup(master6)|] == Dedup(master6)
      && (NoDups(master4) ==> |master4| <= |v4| && v4[..|master4|] == master4)
      && (NoDups(master6) ==> |master6| <= |v6| && v6[..|master6|] == master6)
      && (forall x | x in v4 :: !IsIpv6(x))
      && (forall x | x in v6 :: IsIpv6(x))
      && (forall x | x in custom :: (x in v4 <==> !IsIpv6(x)) && (x in v6 <==> IsIpv6(x)))
  {
    DedupPrefix(master4, Filter(custom, false));
    DedupPrefix(master6, Filter(custom, true));
    if NoDups(master4) {
      DedupOfDistinct(master4);
    }
    if NoDups(master6) {
      DedupOfDistinct(master6);
    }
  }

  /** The built-in master lists are well formed. */
  lemma MastersWellFormed()
    ensures WellFormedMasters(Ipv4Master, Ipv6Master)
  {
    Ipv4MasterHasNoColon();
    Ipv6MasterHasColons();
  }

  lemma Ipv4MasterHasNoColon()
    ensures forall i | 0 <= i < |Ipv4Master| :: !IsIpv6(Ipv4Master[i])
  {
    Ipv4MasterNoColon0To10();
    Ipv4MasterNoColon10To20();
    Ipv4MasterNoColon20To30();
    Ipv4MasterNoColon30To41();
  }

  // The IPv4 master list checked ten entries at a time, to keep each
  // proof small.

  lemma Ipv4MasterNoColon0To10()
    ensures forall i | 0 <= i < 10 :: !IsIpv6(Ipv4Master[i])
  {
  }

  lemma Ipv4MasterNoColon10To20()
    ensures forall i | 10 <= i < 20 :: !IsIpv6(Ipv4Master[i])
  {
  }

  lemma Ipv4MasterNoColon20To30()
    ensures forall i | 20 <= i < 30 :: !IsIpv6(Ipv4Master[i])
  {
  }

  lemma Ipv4MasterNoColon30To41()
    ensures forall i | 30 <= i < 41 :: !IsIpv6(Ipv4Master[i])
  {
  }

  lemma Ipv6MasterHasColons()
    ensures forall i | 0 <= i < |Ipv6Master| :: IsIpv6(Ipv6Master[i])
  {
  }

  /** The built-in IPv4 master list has no duplicates. */
  lemma Ipv4MasterDistinct()
    ensures NoDups(Ipv4Master)
  {
    Ipv4Distinct0To14Vs0To14();
    Ipv4Distinct0To14Vs14To28();
    Ipv4Distinct0To14Vs28To41();
    Ipv4Distinct14To28Vs14To28();
    Ipv4Distinct14To28Vs28To41();
    Ipv4Distinct28To41Vs28To41();
  }

  // The pairs of IPv4 master entries compared in blocks of about
  // fourteen, to keep each proof small.

  lemma Ipv4Distinct0To14Vs0To14()
    ensures forall i, j | 0 <= i < 14 && 0 <= j < 14 && i < j :: Ipv4Master[i] != Ipv4Master[j]
  {
  }

  lemma Ipv4Distinct0To14Vs14To28()
    ensures forall i, j | 0 <= i < 14 && 14 <= j < 28 :: Ipv4Master[i] != Ipv4Master[j]
  {
  }

  lemma Ipv4Distinct0To14Vs28To41()
    ensures forall i, j | 0 <= i < 14 && 28 <= j < 41 :: Ipv4Master[i] != Ipv4Master[j]
  {
  }

  lemma Ipv4Distinct14To28Vs14To28()
    ensures forall i, j | 14 <= i < 28 && 14 <= j < 28 && i < j :: Ipv4Master[i] != Ipv4Master[j]
  {
  }

  lemma Ipv4Distinct14To28Vs28To41()
    ensures forall i, j | 14 <= i < 28 && 28 <= j < 41 :: Ipv4Master[i] != Ipv4Master[j]
  {
  }

  lemma Ipv4Distinct28To41Vs28To41()
    ensures forall i, j | 28 <= i < 41 && 28 <= j < 41 && i < j :: Ipv4Master[i] != Ipv4Master[j]
  {
  }

  /** The built-in IPv6 master list has no duplicates. */
  lemma Ipv6MasterDistinct()
    ensures NoDups(Ipv6Master)
  {
  }

  // ---------------------------------------------------------------------
  // The per-cycle candidate list
  // ---------------------------------------------------------------------

  /** dns.py:995-1001 as written: `all_dns = DNS_IPV4` makes `all_dns` an
      alias of the module-level IPv4 list, so `all_dns += DNS_IPV6`
      extends that list in place. Returns the cycle's candidates and the
      module-level IPv4 list the next cycle starts from. */
  function CandidatesAsWritten(globalV4: seq<string>, v6: seq<string>, useIpv6: bool): (r: (seq<string>, seq<string>))
    ensures useIpv6 ==> r.0 == r.1 && |r.1| == |globalV4| + |v6|
    ensures !useIpv6 ==> r.1 == globalV4
  {
    if useIpv6 then (globalV4 + v6, globalV4 + v6)
    else (Filter(globalV4, false), globalV4)
  }

  /** The module-level IPv4 list after `n` cycles with IPv6 enabled. */
  function GlobalAfter(v4: seq<string>, v6: seq<string>, n: nat): seq<string> {
    if n == 0 then v4 else CandidatesAsWritten(GlobalAfter(v4, v6, n - 1), v6, true).1
  }

  /** The aliased list grows by the whole IPv6 list every cycle: cycle `n`
      (counting from 0) probes `|v4| + (n + 1) * |v6|` addresses. */
  lemma {:induction false} AsWrittenGrows(v4: seq<string>, v6: seq<string>, n: nat)
    ensures |GlobalAfter(v4, v6, n)| == |v4| + n * |v6|
    ensures |CandidatesAsWritten(GlobalAfter(v4, v6, n), v6, true).0| == |v4| + (n + 1) * |v6|
  {
    if n > 0 {
      AsWrittenGrows(v4, v6, n - 1);
    }
  }

  /** Concretely: on the second cycle the first IPv6 master address is
      probed twice. */
  lemma AsWrittenDuplicatesOnSecondCycle()
    ensures var second := CandidatesAsWritten(GlobalAfter(Ipv4Master, Ipv6Master, 1), Ipv6Master, true).0;
      !NoDups(second)
  {
    var second := CandidatesAsWritten(GlobalAfter(Ipv4Master, Ipv6Master, 1), Ipv6Master, true).0;
    var n4, n6 := |Ipv4Master|, |Ipv6Master|;
    assert second == Ipv4Master + Ipv6Master + Ipv6Master;
    assert second[n4] == Ipv6Master[0] == second[n4 + n6];
  }

  /** `n` copies of `s`, one after another. */
  function Repeat(s: seq<string>, n: nat): (r: seq<string>)
    ensures forall x | x in r :: x in s
  {
    if n == 0 then [] else Repeat(s, n - 1) + s
  }

  lemma {:induction false} RepeatCons(s: seq<string>, n: nat)
    ensures Repeat(s, n + 1) == s + Repeat(s, n)
  {
    if n > 0 {
      RepeatCons(s, n - 1);
    }
  }

  /** As written, cycle `n` probes the IPv4 list, then the IPv6 list, then
      `n` further copies of the IPv6 list. */
  lemma {:induction false} AsWrittenShape(v4: seq<string>, v6: seq<string>, n: nat)
    ensures GlobalAfter(v4, v6, n) == v4 + Repeat(v6, n)
    ensures CandidatesAsWritten(GlobalAfter(v4, v6, n), v6, true).0 == (v4 + v6) + Repeat(v6, n)
  {
    if n > 0 {
      AsWrittenShape(v4, v6, n - 1);
    }
    RepeatCons(v6, n);
  }

  /** The candidate list the cycle evidently intends: a fresh list holding
      the IPv4 addresses followed, when IPv6 is enabled, by the IPv6 ones;
      with IPv6 disabled every colon address is filtered out. */
  function CycleCandidates(v4: seq<string>, v6: seq<string>, useIpv6: bool): (r: seq<string>)
    ensures forall x :: x in r <==> (x in v4 && (useIpv6 || !IsIpv6(x))) || (useIpv6 && x in v6)
    ensures !useIpv6 ==> forall x | x in r :: !IsIpv6(x)
  {
    if useIpv6 then v4 + v6 else Filter(v4, false)
  }

  /** The intended candidate list has no duplicates and is the same on
      every cycle, whatever the cycle number. It holds the same set of
      addresses as the as-written list on every cycle; the aliasing only
      adds repeated probes of the IPv6 addresses. */
  lemma {:induction false} CycleCandidatesStable(v4: seq<string>, v6: seq<string>, n: nat)
    requires NoDups(v4) && NoDups(v6)
    requires forall x | x in v4 :: !IsIpv6(x)
    requires forall x | x in v6 :: IsIpv6(x)
    ensures NoDups(CycleCandidates(v4, v6, true))
    ensures CycleCandidates(v4, v6, false) == v4
    ensures forall x :: x in CandidatesAsWritten(GlobalAfter(v4, v6, n), v6, true).0 <==> x in CycleCandidates(v4, v6, true)
  {
    FilterKeepsAll(v4);
    GlobalAfterElements(v4, v6, n);
    var c := v4 + v6;
    forall i, j | 0 <= i < j < |c| ensures c[i] != c[j] {
      if j >= |v4| && i < |v4| {
        assert c[i] in v4 && c[j] in v6;
      }
    }
  }

  lemma {:induction false} FilterKeepsAll(s: seq<string>)
    requires forall x | x in s :: !IsIpv6(x)
    ensures Filter(s, false) == s
  {
    if s != [] {
      assert s[0] in s;
      FilterKeepsAll(s[1..]);
      assert [s[0]] + s[1..] == s;
    }
  }

  lemma {:induction false} GlobalAfterElements(v4: seq<string>, v6: seq<string>, n: nat)
    ensures forall x :: x in GlobalAfter(v4, v6, n) <==> x in v4 || (n > 0 && x in v6)
  {
    if n > 0 {
      GlobalAfterElements(v4, v6, n - 1);
    }
  }
}
