/** `ScanReport`: saturating 64-bit counters, in total and by detector kind. */
module Stats {
  import opened Detectors

  const U64_MAX: nat := 0xFFFF_FFFF_FFFF_FFFF

  type u64 = n: nat | n <= 0xFFFF_FFFF_FFFF_FFFF

  function Saturate(n: nat): u64 { if n <= U64_MAX then n else U64_MAX }

  function SaturatingAdd(a: u64, b: u64): u64 { Saturate(a + b) }

  function Get(m: map<DetectorKind, u64>, key: DetectorKind): u64 { if key in m then m[key] else 0 }

  /** The value of a report at one moment. */
  datatype Report = Report(total: u64, byType: map<DetectorKind, u64>)

  /** The report that exact counting of `events` gives, cut off at the width of the counters. */
  function Counted(events: multiset<DetectorKind>): Report {
    Report(Saturate(|events|), map key | key in events :: Saturate(events[key]))
  }

  function Recorded(r: Report, key: DetectorKind): Report {
    Report(SaturatingAdd(r.total, 1), r.byType[key := SaturatingAdd(Get(r.byType, key), 1)])
  }

  function Merged(r: Report, other: Report): Report {
    Report(SaturatingAdd(r.total, other.total),
           map key | key in r.byType.Keys + other.byType.Keys ::
             SaturatingAdd(Get(r.byType, key), Get(other.byType, key)))
  }

  lemma SaturateAdds(a: nat, b: nat)
    ensures SaturatingAdd(Saturate(a), Saturate(b)) == Saturate(a + b)
  {
  }

  lemma RecordCounts(events: multiset<DetectorKind>, key: DetectorKind)
    ensures Recorded(Counted(events), key) == Counted(events + multiset{key})
  {
    var left, right := Recorded(Counted(events), key), Counted(events + multiset{key});
    assert left.byType.Keys == right.byType.Keys;
  }

  lemma SameCounts(r: Report, s: Report)
    requires r.total == s.total
    requires forall key :: (key in r.byType <==> key in s.byType) && Get(r.byType, key) == Get(s.byType, key)
    ensures r == s
  {
    forall key | key in r.byType
      ensures r.byType[key] == s.byType[key]
    {
      assert Get(r.byType, key) == Get(s.byType, key);
    }
    assert r.byType == s.byType;
  }

  lemma CountedAt(events: multiset<DetectorKind>, key: DetectorKind)
    ensures key in Counted(events).byType <==> key in events
    ensures Get(Counted(events).byType, key) == Saturate(events[key])
  {
  }

  lemma MergedAt(r: Report, other: Report, key: DetectorKind)
    ensures key in Merged(r, other).byType <==> key in r.byType || key in other.byType
    ensures Get(Merged(r, other).byType, key) == SaturatingAdd(Get(r.byType, key), Get(other.byType, key))
  {
  }

  lemma MergeCountsAt(a: multiset<DetectorKind>, b: multiset<DetectorKind>, key: DetectorKind)
    ensures key in Merged(Counted(a), Counted(b)).byType <==> key in Counted(a + b).byType
    ensures Get(Merged(Counted(a), Counted(b)).byType, key) == Get(Counted(a + b).byType, key)
  {
    MergedAt(Counted(a), Counted(b), key);
    CountedAt(a, key);
    CountedAt(b, key);
    CountedAt(a + b, key);
    SaturateAdds(a[key], b[key]);
  }

  /** Merging saturated counts loses nothing that counting everything at once would keep. */
  lemma MergeCounts(a: multiset<DetectorKind>, b: multiset<DetectorKind>)
    ensures Merged(Counted(a), Counted(b)) == Counted(a + b)
  {
    forall key
      ensures key in Merged(Counted(a), Counted(b)).byType <==> key in Counted(a + b).byType
      ensures Get(Merged(Counted(a), Counted(b)).byType, key) == Get(Counted(a + b).byType, key)
    {
      MergeCountsAt(a, b, key);
    }
    MergeTotals(a, b);
    SameCounts(Merged(Counted(a), Counted(b)), Counted(a + b));
  }

  lemma MergeTotals(a: multiset<DetectorKind>, b: multiset<DetectorKind>)
    ensures Merged(Counted(a), Counted(b)).total == Counted(a + b).total
  {
    SaturateAdds(|a|, |b|);
  }

  // ----- a run of records

  /** The report after recording `kinds` one after the other. */
  function RecordedAll(r: Report, kinds: seq<DetectorKind>): Report {
    if kinds == [] then r
    else Recorded(RecordedAll(r, kinds[..|kinds| - 1]), kinds[|kinds| - 1])
  }

  lemma RecordOneMore(r: Report, kinds: seq<DetectorKind>, kind: DetectorKind)
    ensures RecordedAll(r, kinds + [kind]) == Recorded(RecordedAll(r, kinds), kind)
  {
    assert (kinds + [kind])[..|kinds|] == kinds;
  }

  lemma {:induction false} RecordInTwoRuns(r: Report, a: seq<DetectorKind>, b: seq<DetectorKind>)
    ensures RecordedAll(RecordedAll(r, a), b) == RecordedAll(r, a + b)
  {
    if b == [] {
      assert a + b == a;
    } else {
      var n := |b| - 1;
      RecordInTwoRuns(r, a, b[..n]);
      assert (a + b)[..|a + b| - 1] == a + b[..n];
    }
  }

  const EMPTY := Report(0, map[])

  /** The report of a run that begins with nothing recorded. */
  function Tally(kinds: seq<DetectorKind>): Report { RecordedAll(EMPTY, kinds) }

  /** Recording one by one, with saturation at each step, is exact counting with one cut-off at the end. */
  lemma {:induction false} TallyIsExact(kinds: seq<DetectorKind>)
    ensures Tally(kinds) == Counted(multiset(kinds))
  {
    if kinds == [] {
      assert multiset(kinds) == multiset{};
      assert Counted(multiset{}).byType == map[];
    } else {
      var front, last := kinds[..|kinds| - 1], kinds[|kinds| - 1];
      TallyIsExact(front);
      RecordCounts(multiset(front), last);
      assert kinds == front + [last];
      assert multiset(kinds) == multiset(front) + multiset{last};
    }
  }

  /** Merging the report of one run into that of another gives the report of both runs, in either order. */
  lemma MergeOfTallies(a: seq<DetectorKind>, b: seq<DetectorKind>)
    ensures Merged(Tally(a), Tally(b)) == Tally(a + b)
    ensures Merged(Tally(b), Tally(a)) == Tally(a + b)
  {
    MergeTallied(a, b);
    MergeTallied(b, a);
    TallyIgnoresOrder(a, b);
  }

  lemma MergeTallied(a: seq<DetectorKind>, b: seq<DetectorKind>)
    ensures Merged(Tally(a), Tally(b)) == Tally(a + b)
  {
    TallyIsExact(a);
    TallyIsExact(b);
    TallyIsExact(a + b);
    MergeCounts(multiset(a), multiset(b));
    UnionOfRuns(a, b);
  }

  lemma TallyIgnoresOrder(a: seq<DetectorKind>, b: seq<DetectorKind>)
    ensures Tally(a + b) == Tally(b + a)
  {
    TallyIsExact(a + b);
    TallyIsExact(b + a);
    UnionOfRuns(a, b);
    UnionOfRuns(b, a);
    UnionCommutes(multiset(a), multiset(b));
  }

  lemma UnionOfRuns(a: seq<DetectorKind>, b: seq<DetectorKind>)
    ensures multiset(a + b) == multiset(a) + multiset(b)
  {
  }

  lemma UnionCommutes(a: multiset<DetectorKind>, b: multiset<DetectorKind>)
    ensures a + b == b + a
  {
  }

  // ----- the sum of a map of counters

  ghost function Sum(m: map<DetectorKind, nat>): nat {
    if m == map[] then 0
    else
      var key :| key in m;
      m[key] + Sum(m - {key})
  }

  lemma RemoveBoth(m: map<DetectorKind, nat>, a: DetectorKind, b: DetectorKind)
    ensures m - {a} - {b} == m - {b} - {a}
  {
  }

  lemma {:induction false} SumWithout(m: map<DetectorKind, nat>, key: DetectorKind)
    requires key in m
    ensures Sum(m) == m[key] + Sum(m - {key})
    decreases |m|
  {
    var pick :| pick in m && Sum(m) == m[pick] + Sum(m - {pick});
    if pick != key {
      SumWithout(m - {pick}, key);
      SumWithout(m - {key}, pick);
      RemoveBoth(m, pick, key);
    }
  }

  lemma SumUpdate(m: map<DetectorKind, nat>, key: DetectorKind, value: nat)
    ensures Sum(m[key := value]) == Sum(m) - (if key in m then m[key] else 0) + value
  {
    SumWithout(m[key := value], key);
    assert m[key := value] - {key} == m - {key};
    if key in m {
      SumWithout(m, key);
    } else {
      assert m - {key} == m;
    }
  }

  lemma {:induction false} SumOfCounts(events: multiset<DetectorKind>)
    requires |events| <= U64_MAX
    ensures Sum(Counted(events).byType) == |events|
    decreases |events|
  {
    if key :| key in events {
      var rest := events - multiset{key};
      SumOfCounts(rest);
      assert events == rest + multiset{key};
      RecordCounts(rest, key);
      SumUpdate(Counted(rest).byType, key, SaturatingAdd(Get(Counted(rest).byType, key), 1));
    } else {
      assert events == multiset{};
      assert Counted(events).byType == map[];
    }
  }

  /** The total of a run is its length, cut off, and adds up from the kinds while it is not cut off. */
  lemma TallyAddsUp(kinds: seq<DetectorKind>)
    ensures Tally(kinds).total == Saturate(|kinds|)
    ensures Tally(kinds).total == 0 <==> kinds == []
    ensures |kinds| <= U64_MAX ==> Sum(Tally(kinds).byType) == Tally(kinds).total
  {
    TallyIsExact(kinds);
    if |kinds| <= U64_MAX {
      SumOfCounts(multiset(kinds));
    }
  }

  class ScanReport {
    var total: u64
    var byType: map<DetectorKind, u64>

    function View(): Report
      reads this
    {
      Report(total, byType)
    }

    constructor ()
      ensures View() == EMPTY
    {
      total, byType := 0, map[];
    }

    method Record(key: DetectorKind)
      modifies this
      ensures View() == Recorded(old(View()), key)
    {
      total := SaturatingAdd(total, 1);
      var count := Get(byType, key);
      byType := byType[key := SaturatingAdd(count, 1)];
    }

    method Merge(other: Report)
      modifies this
      ensures View() == Merged(old(View()), other)
    {
      total := SaturatingAdd(total, other.total);
      var rest := other.byType.Keys;
      while rest != {}
        invariant rest <= other.byType.Keys
        invariant total == SaturatingAdd(old(total), other.total)
        invariant byType.Keys == old(byType).Keys + (other.byType.Keys - rest)
        invariant forall key | key in byType ::
                    byType[key] == if key in other.byType && key !in rest
                                     then SaturatingAdd(Get(old(byType), key), other.byType[key])
                                     else Get(old(byType), key)
        decreases rest
      {
        var kind :| kind in rest;
        var current := Get(byType, kind);
        byType := byType[kind := SaturatingAdd(current, other.byType[kind])];
        rest := rest - {kind};
      }
      assert View() == Merged(old(View()), other);
    }
  }
}
