/**
 * The spans that the line-diff library hands to the view (its `Change`
 * objects), and the added/removed statistics the view derives from them
 * (DiffView.tsx lines 93-94).
 */
module Changes {
  import opened Wrappers

  /** A span is unchanged, added (only in the modified text) or removed (only in the original). */
  datatype Kind = Equal | Added | Removed

  /** One span of the line diff: its kind, its text, and the library's optional line count. */
  datatype Change = Change(kind: Kind, value: string, count: Option<nat>)

  datatype DiffStats = DiffStats(added: nat, removed: nat)

  /** `changes.filter(c => c.<kind>)`: the spans of one kind, in order. */
  function OfKind(cs: seq<Change>, k: Kind): (r: seq<Change>)
    ensures |r| <= |cs|
    ensures forall j :: 0 <= j < |r| ==> r[j].kind == k
    ensures forall j :: 0 <= j < |cs| && cs[j].kind == k ==> cs[j] in r
    ensures forall c :: c in r ==> c in cs
    decreases |cs|
  {
    if |cs| == 0 then []
    else
      var rest := OfKind(cs[1..], k);
      assert forall j :: 1 <= j < |cs| ==> cs[j] == cs[1..][j - 1];
      if cs[0].kind == k then [cs[0]] + rest else rest
  }

  /** Filtering a concatenation filters each part: the filter keeps order and multiplicity. */
  lemma {:induction false} OfKindAppend(a: seq<Change>, b: seq<Change>, k: Kind)
    ensures OfKind(a + b, k) == OfKind(a, k) + OfKind(b, k)
    decreases |a|
  {
    if |a| > 0 {
      assert (a + b)[1..] == a[1..] + b;
      OfKindAppend(a[1..], b, k);
    } else {
      assert a + b == b;
    }
  }

  /** A single span is kept exactly when it has the kind. */
  lemma OfKindOne(c: Change, k: Kind)
    ensures OfKind([c], k) == if c.kind == k then [c] else []
  {
    assert [c][1..] == [];
  }

  /** `.reduce((sum, c) => sum + (c.count ?? 0), 0)`. */
  function SumCounts(cs: seq<Change>): nat
    decreases |cs|
  {
    if |cs| == 0 then 0 else cs[0].count.GetOr(0) + SumCounts(cs[1..])
  }

  /** The statistics bar's two numbers. */
  function Stats(cs: seq<Change>): DiffStats
  {
    DiffStats(SumCounts(OfKind(cs, Added)), SumCounts(OfKind(cs, Removed)))
  }

  /** The total of `count ?? 0` over the spans of kind `k`, read directly off the span list. */
  function KindTotal(cs: seq<Change>, k: Kind): nat
    decreases |cs|
  {
    if |cs| == 0 then 0
    else (if cs[0].kind == k then cs[0].count.GetOr(0) else 0) + KindTotal(cs[1..], k)
  }

  /**
   * `stats.added` is the sum of `count ?? 0` over the added spans, and
   * `stats.removed` over the removed spans, whatever the counts are.
   */
  lemma {:induction false} StatsAreSums(cs: seq<Change>)
    ensures Stats(cs).added == KindTotal(cs, Added)
    ensures Stats(cs).removed == KindTotal(cs, Removed)
  {
    FilterSum(cs, Added);
    FilterSum(cs, Removed);
  }

  lemma {:induction false} FilterSum(cs: seq<Change>, k: Kind)
    ensures SumCounts(OfKind(cs, k)) == KindTotal(cs, k)
    decreases |cs|
  {
    if |cs| > 0 {
      FilterSum(cs[1..], k);
      var rest := OfKind(cs[1..], k);
      if cs[0].kind == k {
        assert ([cs[0]] + rest)[1..] == rest;
      }
    }
  }

  /** A span of kind `k` with a positive line count. */
  predicate Counts(c: Change, k: Kind)
  {
    c.kind == k && c.count.GetOr(0) > 0
  }

  lemma {:induction false} SumCountsZero(cs: seq<Change>)
    ensures SumCounts(cs) == 0 <==> forall j :: 0 <= j < |cs| ==> cs[j].count.GetOr(0) == 0
    decreases |cs|
  {
    if |cs| > 0 {
      SumCountsZero(cs[1..]);
      assert forall j :: 1 <= j < |cs| ==> cs[j] == cs[1..][j - 1];
    }
  }

  /**
   * A statistic is zero exactly when no span of that kind carries a
   * positive count; in particular it is zero when there is no such span.
   */
  lemma StatsZero(cs: seq<Change>)
    ensures Stats(cs).added == 0 <==> forall j :: 0 <= j < |cs| ==> !Counts(cs[j], Added)
    ensures Stats(cs).removed == 0 <==> forall j :: 0 <= j < |cs| ==> !Counts(cs[j], Removed)
  {
    var a, r := OfKind(cs, Added), OfKind(cs, Removed);
    SumCountsZero(a);
    SumCountsZero(r);
    assert (exists j :: 0 <= j < |a| && a[j].count.GetOr(0) > 0) <==> (exists j :: 0 <= j < |cs| && Counts(cs[j], Added)) by {
      if j :| 0 <= j < |cs| && Counts(cs[j], Added) {
        var i :| 0 <= i < |a| && a[i] == cs[j];
      }
      if j :| 0 <= j < |a| && a[j].count.GetOr(0) > 0 {
        assert a[j] in a;
        var i :| 0 <= i < |cs| && cs[i] == a[j];
        assert Counts(cs[i], Added);
      }
    }
    assert (exists j :: 0 <= j < |r| && r[j].count.GetOr(0) > 0) <==> (exists j :: 0 <= j < |cs| && Counts(cs[j], Removed)) by {
      if j :| 0 <= j < |cs| && Counts(cs[j], Removed) {
        var i :| 0 <= i < |r| && r[i] == cs[j];
      }
      if j :| 0 <= j < |r| && r[j].count.GetOr(0) > 0 {
        assert r[j] in r;
        var i :| 0 <= i < |cs| && cs[i] == r[j];
        assert Counts(cs[i], Removed);
      }
    }
  }
}
