/**
 * The side-by-side row aligner `buildRows` (DiffView.tsx lines 4-82): it walks
 * the spans once, keeps one line counter per column, and zips a removed span
 * with an immediately following added span into `changed` rows.
 *
 * `RowsOf` is the specification: the table the aligner produces from the
 * spans that are left, given the two counters.  `BuildRows` is the loop of
 * the source, proved to compute `RowsOf(changes, 1, 1)`; the lemmas below say
 * what that table is: each column reproduces its side's lines, numbered
 * 1, 2, 3, ..., every row is well formed, and pairing looks one span ahead.
 */
module Rows {
  import opened Wrappers
  import opened Lines
  import C = Changes

  datatype RowType = Equal | Added | Removed | Changed

  /** One line of the table; `None` stands for the source's `null`. */
  datatype DiffRow = DiffRow(
    left: Option<string>,
    right: Option<string>,
    leftLineNum: Option<nat>,
    rightLineNum: Option<nat>,
    rowType: RowType)

  /** The two columns of the table: the original text and the modified text. */
  datatype Side = Left | Right

  function Text(row: DiffRow, side: Side): Option<string>
  {
    if side == Left then row.left else row.right
  }

  function Num(row: DiffRow, side: Side): Option<nat>
  {
    if side == Left then row.leftLineNum else row.rightLineNum
  }

  function Max(a: nat, b: nat): nat
  {
    if a < b then b else a
  }

  function Min(a: nat, b: nat): nat
  {
    if a < b then a else b
  }

  /** The first element, or `None` for an exhausted side of a pair. */
  function Head(ls: seq<string>): Option<string>
  {
    if |ls| > 0 then Some(ls[0]) else None
  }

  function Tail(ls: seq<string>): seq<string>
  {
    if |ls| > 0 then ls[1..] else []
  }

  // ---------------------------------------------------------------------
  // The four kinds of block the aligner emits, one row per line (or line pair).

  /** An equal span: both columns show the line, both counters advance. */
  function EqualRows(ls: seq<string>, l: nat, r: nat): seq<DiffRow>
    decreases |ls|
  {
    if |ls| == 0 then []
    else [DiffRow(Some(ls[0]), Some(ls[0]), Some(l), Some(r), Equal)] + EqualRows(ls[1..], l + 1, r + 1)
  }

  /** A removed span with no added span after it: left column only. */
  function RemovedRows(ls: seq<string>, l: nat): seq<DiffRow>
    decreases |ls|
  {
    if |ls| == 0 then []
    else [DiffRow(Some(ls[0]), None, Some(l), None, Removed)] + RemovedRows(ls[1..], l + 1)
  }

  /** An added span not consumed by a pair: right column only. */
  function AddedRows(ls: seq<string>, r: nat): seq<DiffRow>
    decreases |ls|
  {
    if |ls| == 0 then []
    else [DiffRow(None, Some(ls[0]), None, Some(r), Added)] + AddedRows(ls[1..], r + 1)
  }

  /**
   * A removed span followed by an added span: the two line lists zipped,
   * the side that runs out first padded with nulls, every row `changed`.
   */
  function PairedRows(rl: seq<string>, al: seq<string>, l: nat, r: nat): seq<DiffRow>
    decreases |rl| + |al|
  {
    if |rl| == 0 && |al| == 0 then []
    else
      var hasLeft, hasRight := |rl| > 0, |al| > 0;
      [DiffRow(Head(rl), Head(al),
               if hasLeft then Some(l) else None,
               if hasRight then Some(r) else None,
               Changed)]
      + PairedRows(Tail(rl), Tail(al), if hasLeft then l + 1 else l, if hasRight then r + 1 else r)
  }

  /** A span as the aligner reads it: its kind and its split lines. */
  datatype Span = Span(kind: C.Kind, lines: seq<string>)

  /** Every span of the diff with its value split into lines. */
  function Spans(changes: seq<C.Change>): seq<Span>
  {
    seq(|changes|, k requires 0 <= k < |changes| => Span(changes[k].kind, SplitLines(changes[k].value)))
  }

  /** Whether `ss` starts with a removed span immediately followed by an added one. */
  predicate StartsWithPair(ss: seq<Span>)
  {
    |ss| > 1 && ss[0].kind == C.Removed && ss[1].kind == C.Added
  }

  /** How many spans the first block consumes: two for a removed/added pair, one otherwise. */
  function Width(ss: seq<Span>): (w: nat)
    requires |ss| > 0
    ensures 1 <= w <= |ss|
  {
    if StartsWithPair(ss) then 2 else 1
  }

  /** The rows emitted for the first `Width(ss)` spans, with counters at `l` and `r`. */
  function Block(ss: seq<Span>, l: nat, r: nat): seq<DiffRow>
    requires |ss| > 0
  {
    var lines := ss[0].lines;
    if ss[0].kind == C.Equal then EqualRows(lines, l, r)
    else if StartsWithPair(ss) then PairedRows(lines, ss[1].lines, l, r)
    else if ss[0].kind == C.Removed then RemovedRows(lines, l)
    else AddedRows(lines, r)
  }

  /** How far the first block advances the left counter: one per removed or equal line. */
  function LeftAdvance(ss: seq<Span>): nat
    requires |ss| > 0
  {
    if ss[0].kind == C.Added then 0 else |ss[0].lines|
  }

  /** How far the first block advances the right counter: one per added or equal line. */
  function RightAdvance(ss: seq<Span>): nat
    requires |ss| > 0
  {
    if StartsWithPair(ss) then |ss[1].lines|
    else if ss[0].kind == C.Removed then 0
    else |ss[0].lines|
  }

  /**
   * The rows the aligner emits for the spans `ss`, with counters starting at
   * `l` and `r`: the first block, then the rest with both counters advanced.
   */
  function RowsOf(ss: seq<Span>, l: nat, r: nat): seq<DiffRow>
    decreases |ss|
  {
    if |ss| == 0 then []
    else Block(ss, l, r) + RowsOf(ss[Width(ss)..], l + LeftAdvance(ss), r + RightAdvance(ss))
  }

  // ---------------------------------------------------------------------
  // The loop of the source.

  /** `buildRows`: the row table for the spans of one diff. */
  method BuildRows(changes: seq<C.Change>) returns (rows: seq<DiffRow>)
    ensures rows == RowsOf(Spans(changes), 1, 1)
    ensures Texts(rows, Left) == SideLines(Spans(changes), Left)
    ensures Texts(rows, Right) == SideLines(Spans(changes), Right)
    ensures Nums(rows, Left) == Iota(1, |SideLines(Spans(changes), Left)|)
    ensures Nums(rows, Right) == Iota(1, |SideLines(Spans(changes), Right)|)
    ensures AllWellFormed(rows)
  {
    ghost var spans := Spans(changes);
    rows := [];
    var leftLine: nat := 1;
    var rightLine: nat := 1;
    var i := 0;
    while i < |changes|
      invariant 0 <= i <= |changes|
      invariant rows + RowsOf(spans[i..], leftLine, rightLine) == RowsOf(spans, 1, 1)
    {
      ghost var before, l0, r0 := rows, leftLine, rightLine;
      ghost var rest := spans[i..];
      rows, i, leftLine, rightLine := PushBlock(rows, changes, i, leftLine, rightLine);
      assert rest[Width(rest)..] == spans[i..];
      RowsOfStep(rest, l0, r0, before, spans[i..], leftLine, rightLine, rows);
    }
    assert spans[i..] == [];
    Reconstruction(spans, 1, 1, Left);
    Reconstruction(spans, 1, 1, Right);
    Numbering(spans, 1, 1, Left);
    Numbering(spans, 1, 1, Right);
    WellFormedRows(spans, 1, 1);
  }

  /** The inner loop over an equal span's lines (DiffView.tsx lines 24-33). */
  method PushEqual(rows: seq<DiffRow>, lines: seq<string>, l: nat, r: nat)
    returns (rows': seq<DiffRow>, l': nat, r': nat)
    ensures rows' == rows + EqualRows(lines, l, r)
    ensures l' == l + |lines| && r' == r + |lines|
  {
    rows', l', r' := rows, l, r;
    for j := 0 to |lines|
      invariant l' == l + j && r' == r + j
      invariant rows' + EqualRows(lines[j..], l', r') == rows + EqualRows(lines, l, r)
    {
      EqualStep(lines, j, l', r', rows');
      rows' := rows' + [DiffRow(Some(lines[j]), Some(lines[j]), Some(l'), Some(r'), Equal)];
      l' := l' + 1;
      r' := r' + 1;
    }
    assert lines[|lines|..] == [];
  }

  /**
   * One turn of the outer loop: the rows of the span at `i`, or of the
   * removed/added pair starting there, with the counters advanced past them.
   */
  method PushBlock(rows: seq<DiffRow>, changes: seq<C.Change>, i: nat, l: nat, r: nat)
    returns (rows': seq<DiffRow>, i': nat, l': nat, r': nat)
    requires i < |changes|
    ensures var rest := Spans(changes)[i..];
      && i' == i + Width(rest)
      && l' == l + LeftAdvance(rest) && r' == r + RightAdvance(rest)
      && rows' == rows + Block(rest, l, r)
  {
    ghost var rest := Spans(changes)[i..];
    var change := changes[i];
    var lines := SplitLines(change.value);
    assert rest[0] == Span(change.kind, lines);
    if change.kind == C.Equal {
      assert Block(rest, l, r) == EqualRows(lines, l, r);
      rows', l', r' := PushEqual(rows, lines, l, r);
      i' := i + 1;
    } else if change.kind == C.Removed && i + 1 < |changes| && changes[i + 1].kind == C.Added {
      var added := SplitLines(changes[i + 1].value);
      assert rest[1] == Span(C.Added, added);
      assert Block(rest, l, r) == PairedRows(lines, added, l, r);
      rows', l', r' := PushPaired(rows, lines, added, l, r);
      i' := i + 2;
    } else if change.kind == C.Removed {
      assert |rest| > 1 ==> rest[1] == Spans(changes)[i + 1];
      assert Block(rest, l, r) == RemovedRows(lines, l);
      rows', l' := PushRemoved(rows, lines, l);
      r', i' := r, i + 1;
    } else {
      assert Block(rest, l, r) == AddedRows(lines, r);
      rows', r' := PushAdded(rows, lines, r);
      l', i' := l, i + 1;
    }
  }

  /** The inner loop over a removed/added pair, zipped by index (DiffView.tsx lines 37-50). */
  method PushPaired(rows: seq<DiffRow>, removedLines: seq<string>, addedLines: seq<string>, l: nat, r: nat)
    returns (rows': seq<DiffRow>, l': nat, r': nat)
    ensures rows' == rows + PairedRows(removedLines, addedLines, l, r)
    ensures l' == l + |removedLines| && r' == r + |addedLines|
  {
    rows', l', r' := rows, l, r;
    var maxLen := Max(|removedLines|, |addedLines|);
    for j := 0 to maxLen
      invariant l' == l + Min(j, |removedLines|)
      invariant r' == r + Min(j, |addedLines|)
      invariant rows' + PairedRows(removedLines[Min(j, |removedLines|)..], addedLines[Min(j, |addedLines|)..], l', r')
                == rows + PairedRows(removedLines, addedLines, l, r)
    {
      var hasLeft := j < |removedLines|;
      var hasRight := j < |addedLines|;
      var row := DiffRow(if hasLeft then Some(removedLines[j]) else None,
                         if hasRight then Some(addedLines[j]) else None,
                         if hasLeft then Some(l') else None,
                         if hasRight then Some(r') else None,
                         Changed);
      PairedStep(removedLines, addedLines, j, l', r', rows');
      rows' := rows' + [row];
      if hasLeft {
        l' := l' + 1;
      }
      if hasRight {
        r' := r' + 1;
      }
    }
    assert removedLines[|removedLines|..] == [] && addedLines[|addedLines|..] == [];
  }

  /** The inner loop over a removed span with no added span after it (DiffView.tsx lines 54-63). */
  method PushRemoved(rows: seq<DiffRow>, lines: seq<string>, l: nat) returns (rows': seq<DiffRow>, l': nat)
    ensures rows' == rows + RemovedRows(lines, l)
    ensures l' == l + |lines|
  {
    rows', l' := rows, l;
    for j := 0 to |lines|
      invariant l' == l + j
      invariant rows' + RemovedRows(lines[j..], l') == rows + RemovedRows(lines, l)
    {
      RemovedStep(lines, j, l', rows');
      rows' := rows' + [DiffRow(Some(lines[j]), None, Some(l'), None, Removed)];
      l' := l' + 1;
    }
    assert lines[|lines|..] == [];
  }

  /** The inner loop over an added span not consumed by a pair (DiffView.tsx lines 67-76). */
  method PushAdded(rows: seq<DiffRow>, lines: seq<string>, r: nat) returns (rows': seq<DiffRow>, r': nat)
    ensures rows' == rows + AddedRows(lines, r)
    ensures r' == r + |lines|
  {
    rows', r' := rows, r;
    for j := 0 to |lines|
      invariant r' == r + j
      invariant rows' + AddedRows(lines[j..], r') == rows + AddedRows(lines, r)
    {
      AddedStep(lines, j, r', rows');
      rows' := rows' + [DiffRow(None, Some(lines[j]), None, Some(r'), Added)];
      r' := r' + 1;
    }
    assert lines[|lines|..] == [];
  }

  // One step of each loop of BuildRows, as the loop invariants need it.

  lemma EqualStep(lines: seq<string>, j: nat, l: nat, r: nat, rows: seq<DiffRow>)
    requires j < |lines|
    ensures rows + EqualRows(lines[j..], l, r)
            == (rows + [DiffRow(Some(lines[j]), Some(lines[j]), Some(l), Some(r), Equal)]) + EqualRows(lines[j + 1..], l + 1, r + 1)
  {
    assert lines[j..][1..] == lines[j + 1..];
  }

  lemma RemovedStep(lines: seq<string>, j: nat, l: nat, rows: seq<DiffRow>)
    requires j < |lines|
    ensures rows + RemovedRows(lines[j..], l)
            == (rows + [DiffRow(Some(lines[j]), None, Some(l), None, Removed)]) + RemovedRows(lines[j + 1..], l + 1)
  {
    assert lines[j..][1..] == lines[j + 1..];
  }

  lemma AddedStep(lines: seq<string>, j: nat, r: nat, rows: seq<DiffRow>)
    requires j < |lines|
    ensures rows + AddedRows(lines[j..], r)
            == (rows + [DiffRow(None, Some(lines[j]), None, Some(r), Added)]) + AddedRows(lines[j + 1..], r + 1)
  {
    assert lines[j..][1..] == lines[j + 1..];
  }

  lemma PairedStep(rl: seq<string>, al: seq<string>, j: nat, l: nat, r: nat, rows: seq<DiffRow>)
    requires j < Max(|rl|, |al|)
    ensures var hasLeft, hasRight := j < |rl|, j < |al|;
      rows + PairedRows(rl[Min(j, |rl|)..], al[Min(j, |al|)..], l, r)
      == (rows + [DiffRow(if hasLeft then Some(rl[j]) else None, if hasRight then Some(al[j]) else None,
                          if hasLeft then Some(l) else None, if hasRight then Some(r) else None, Changed)])
         + PairedRows(rl[Min(j + 1, |rl|)..], al[Min(j + 1, |al|)..],
                      if hasLeft then l + 1 else l, if hasRight then r + 1 else r)
  {
    var x, y := rl[Min(j, |rl|)..], al[Min(j, |al|)..];
    assert Tail(x) == rl[Min(j + 1, |rl|)..];
    assert Tail(y) == al[Min(j + 1, |al|)..];
  }

  lemma RowsOfUnfold(ss: seq<Span>, l: nat, r: nat)
    requires |ss| > 0
    ensures RowsOf(ss, l, r) == Block(ss, l, r) + RowsOf(ss[Width(ss)..], l + LeftAdvance(ss), r + RightAdvance(ss))
  {
  }

  /** One turn of the outer loop: the first block of `rest` moves from the specification into `rows`. */
  lemma RowsOfStep(rest: seq<Span>, l: nat, r: nat, rows: seq<DiffRow>,
                   rest': seq<Span>, l': nat, r': nat, rows': seq<DiffRow>)
    requires |rest| > 0 && rest' == rest[Width(rest)..]
    requires l' == l + LeftAdvance(rest) && r' == r + RightAdvance(rest)
    requires rows' == rows + Block(rest, l, r)
    ensures rows + RowsOf(rest, l, r) == rows' + RowsOf(rest', l', r')
  {
    RowsOfUnfold(rest, l, r);
    Associative(rows, Block(rest, l, r), RowsOf(rest', l', r'));
  }

  /** Kept apart from `RowsOfStep` so that the solver sees no function definitions while regrouping. */
  lemma Associative(a: seq<DiffRow>, b: seq<DiffRow>, c: seq<DiffRow>)
    ensures a + (b + c) == (a + b) + c
  {
  }

  // ---------------------------------------------------------------------
  // Columns: what each side of the table shows.

  /** Whether a span's lines appear in a column: the left omits added spans, the right removed ones. */
  predicate Shows(k: C.Kind, side: Side)
  {
    if side == Left then k != C.Added else k != C.Removed
  }

  /** The lines of one side of the diff: the split lines of every span shown on that side, in order. */
  function SideLines(ss: seq<Span>, side: Side): seq<string>
    decreases |ss|
  {
    if |ss| == 0 then []
    else (if Shows(ss[0].kind, side) then ss[0].lines else []) + SideLines(ss[1..], side)
  }

  /** The non-null texts of one column, top to bottom. */
  function Texts(rows: seq<DiffRow>, side: Side): seq<string>
    decreases |rows|
  {
    if |rows| == 0 then []
    else (match Text(rows[0], side) case Some(t) => [t] case None => []) + Texts(rows[1..], side)
  }

  /** The non-null line numbers of one column, top to bottom. */
  function Nums(rows: seq<DiffRow>, side: Side): seq<nat>
    decreases |rows|
  {
    if |rows| == 0 then []
    else (match Num(rows[0], side) case Some(n) => [n] case None => []) + Nums(rows[1..], side)
  }

  /** `from, from + 1, ..., from + n - 1`. */
  function Iota(from: nat, n: nat): seq<nat>
    decreases n
  {
    if n == 0 then [] else [from] + Iota(from + 1, n - 1)
  }

  /** `Iota(from, n)` holds exactly the `n` consecutive numbers from `from` on. */
  lemma {:induction false} IotaIndex(from: nat, n: nat)
    ensures |Iota(from, n)| == n
    ensures forall k :: 0 <= k < n ==> Iota(from, n)[k] == from + k
    decreases n
  {
    if n > 0 {
      IotaIndex(from + 1, n - 1);
    }
  }

  lemma IotaCons(from: nat, n: nat)
    requires n > 0
    ensures Iota(from, n) == [from] + Iota(from + 1, n - 1)
  {
  }

  lemma {:induction false} IotaAppend(from: nat, a: nat, b: nat)
    ensures Iota(from, a) + Iota(from + a, b) == Iota(from, a + b)
    decreases a
  {
    if a > 0 {
      IotaAppend(from + 1, a - 1, b);
      assert Iota(from, a + b) == [from] + Iota(from + 1, a - 1 + b);
      assert Iota(from, a) + Iota(from + a, b) == [from] + (Iota(from + 1, a - 1) + Iota(from + 1 + (a - 1), b));
    } else {
      assert Iota(from, a) == [];
    }
  }

  lemma {:induction false} TextsAppend(a: seq<DiffRow>, b: seq<DiffRow>, side: Side)
    ensures Texts(a + b, side) == Texts(a, side) + Texts(b, side)
    decreases |a|
  {
    if |a| > 0 {
      assert (a + b)[1..] == a[1..] + b;
      TextsAppend(a[1..], b, side);
    } else {
      assert a + b == b;
    }
  }

  lemma {:induction false} NumsAppend(a: seq<DiffRow>, b: seq<DiffRow>, side: Side)
    ensures Nums(a + b, side) == Nums(a, side) + Nums(b, side)
    decreases |a|
  {
    if |a| > 0 {
      assert (a + b)[1..] == a[1..] + b;
      NumsAppend(a[1..], b, side);
    } else {
      assert a + b == b;
    }
  }

  lemma TextsCons(row: DiffRow, rows: seq<DiffRow>, side: Side)
    ensures Texts([row] + rows, side) == (match Text(row, side) case Some(t) => [t] case None => []) + Texts(rows, side)
  {
    assert ([row] + rows)[1..] == rows;
  }

  lemma NumsCons(row: DiffRow, rows: seq<DiffRow>, side: Side)
    ensures Nums([row] + rows, side) == (match Num(row, side) case Some(n) => [n] case None => []) + Nums(rows, side)
  {
    assert ([row] + rows)[1..] == rows;
  }

  lemma {:induction false} EqualTexts(ls: seq<string>, l: nat, r: nat, side: Side)
    ensures Texts(EqualRows(ls, l, r), side) == ls
    decreases |ls|
  {
    if |ls| > 0 {
      var row, tail := DiffRow(Some(ls[0]), Some(ls[0]), Some(l), Some(r), Equal), EqualRows(ls[1..], l + 1, r + 1);
      EqualTexts(ls[1..], l + 1, r + 1, side);
      TextsCons(row, tail, side);
      assert ls == [ls[0]] + ls[1..];
    }
  }

  lemma {:induction false} EqualNums(ls: seq<string>, l: nat, r: nat, side: Side)
    ensures Nums(EqualRows(ls, l, r), side) == Iota(Start(l, r, side), |ls|)
    decreases |ls|
  {
    if |ls| > 0 {
      var row, tail := DiffRow(Some(ls[0]), Some(ls[0]), Some(l), Some(r), Equal), EqualRows(ls[1..], l + 1, r + 1);
      EqualNums(ls[1..], l + 1, r + 1, side);
      NumsCons(row, tail, side);
      IotaCons(Start(l, r, side), |ls|);
    }
  }

  lemma {:induction false} RemovedTexts(ls: seq<string>, l: nat, side: Side)
    ensures Texts(RemovedRows(ls, l), side) == if side == Left then ls else []
    decreases |ls|
  {
    if |ls| > 0 {
      var row, tail := DiffRow(Some(ls[0]), None, Some(l), None, Removed), RemovedRows(ls[1..], l + 1);
      RemovedTexts(ls[1..], l + 1, side);
      TextsCons(row, tail, side);
      assert ls == [ls[0]] + ls[1..];
    }
  }

  lemma {:induction false} RemovedNums(ls: seq<string>, l: nat, side: Side)
    ensures Nums(RemovedRows(ls, l), side) == if side == Left then Iota(l, |ls|) else []
    decreases |ls|
  {
    if |ls| > 0 {
      var row, tail := DiffRow(Some(ls[0]), None, Some(l), None, Removed), RemovedRows(ls[1..], l + 1);
      RemovedNums(ls[1..], l + 1, side);
      NumsCons(row, tail, side);
      IotaCons(l, |ls|);
    }
  }

  lemma {:induction false} AddedTexts(ls: seq<string>, r: nat, side: Side)
    ensures Texts(AddedRows(ls, r), side) == if side == Right then ls else []
    decreases |ls|
  {
    if |ls| > 0 {
      var row, tail := DiffRow(None, Some(ls[0]), None, Some(r), Added), AddedRows(ls[1..], r + 1);
      AddedTexts(ls[1..], r + 1, side);
      TextsCons(row, tail, side);
      assert ls == [ls[0]] + ls[1..];
    }
  }

  lemma {:induction false} AddedNums(ls: seq<string>, r: nat, side: Side)
    ensures Nums(AddedRows(ls, r), side) == if side == Right then Iota(r, |ls|) else []
    decreases |ls|
  {
    if |ls| > 0 {
      var row, tail := DiffRow(None, Some(ls[0]), None, Some(r), Added), AddedRows(ls[1..], r + 1);
      AddedNums(ls[1..], r + 1, side);
      NumsCons(row, tail, side);
      IotaCons(r, |ls|);
    }
  }

  /** The first row of a non-empty pair block, and the pair block of the two tails after it. */
  lemma PairedCons(rl: seq<string>, al: seq<string>, l: nat, r: nat)
    requires |rl| > 0 || |al| > 0
    ensures PairedRows(rl, al, l, r)
            == [DiffRow(Head(rl), Head(al), if |rl| > 0 then Some(l) else None, if |al| > 0 then Some(r) else None, Changed)]
               + PairedRows(Tail(rl), Tail(al), if |rl| > 0 then l + 1 else l, if |al| > 0 then r + 1 else r)
  {
  }

  lemma {:induction false} PairedTexts(rl: seq<string>, al: seq<string>, l: nat, r: nat, side: Side)
    ensures Texts(PairedRows(rl, al, l, r), side) == if side == Left then rl else al
    decreases |rl| + |al|
  {
    if |rl| > 0 || |al| > 0 {
      var l', r' := if |rl| > 0 then l + 1 else l, if |al| > 0 then r + 1 else r;
      var row := DiffRow(Head(rl), Head(al), if |rl| > 0 then Some(l) else None, if |al| > 0 then Some(r) else None, Changed);
      PairedCons(rl, al, l, r);
      PairedTexts(Tail(rl), Tail(al), l', r', side);
      TextsCons(row, PairedRows(Tail(rl), Tail(al), l', r'), side);
      var ls := if side == Left then rl else al;
      assert ls == (if |ls| > 0 then [ls[0]] else []) + Tail(ls);
    }
  }

  lemma {:induction false} PairedNums(rl: seq<string>, al: seq<string>, l: nat, r: nat, side: Side)
    ensures Nums(PairedRows(rl, al, l, r), side) == if side == Left then Iota(l, |rl|) else Iota(r, |al|)
    decreases |rl| + |al|
  {
    if |rl| > 0 || |al| > 0 {
      var l', r' := if |rl| > 0 then l + 1 else l, if |al| > 0 then r + 1 else r;
      var row := DiffRow(Head(rl), Head(al), if |rl| > 0 then Some(l) else None, if |al| > 0 then Some(r) else None, Changed);
      PairedCons(rl, al, l, r);
      PairedNums(Tail(rl), Tail(al), l', r', side);
      NumsCons(row, PairedRows(Tail(rl), Tail(al), l', r'), side);
      if |rl| > 0 { IotaCons(l, |rl|); }
      if |al| > 0 { IotaCons(r, |al|); }
    }
  }

  lemma {:induction false} SideLinesAppend(a: seq<Span>, b: seq<Span>, side: Side)
    ensures SideLines(a + b, side) == SideLines(a, side) + SideLines(b, side)
    decreases |a|
  {
    if |a| > 0 {
      assert (a + b)[1..] == a[1..] + b;
      SideLinesAppend(a[1..], b, side);
    } else {
      assert a + b == b;
    }
  }

  /** The lines shown by the first one or two spans. */
  lemma SideLinesPrefix(ss: seq<Span>, side: Side)
    ensures |ss| > 0 ==> SideLines(ss[..1], side) == (if Shows(ss[0].kind, side) then ss[0].lines else [])
    ensures |ss| > 1 ==> SideLines(ss[..2], side) == SideLines(ss[..1], side)
                                                     + (if Shows(ss[1].kind, side) then ss[1].lines else [])
  {
    if |ss| > 0 {
      assert ss[..1][1..] == [];
    }
    if |ss| > 1 {
      assert ss[..2][1..] == ss[1..2];
      assert ss[1..2][1..] == [];
    }
  }

  /** Where a column's numbering starts. */
  function Start(l: nat, r: nat, side: Side): nat
  {
    if side == Left then l else r
  }

  /** How far the first block advances a column's counter. */
  function Advance(ss: seq<Span>, side: Side): nat
    requires |ss| > 0
  {
    if side == Left then LeftAdvance(ss) else RightAdvance(ss)
  }

  /** The texts the first block shows in a column: the lines of the spans it consumes that show there. */
  lemma BlockTexts(ss: seq<Span>, l: nat, r: nat, side: Side)
    requires |ss| > 0
    ensures Texts(Block(ss, l, r), side) == SideLines(ss[..Width(ss)], side)
  {
    var lines := ss[0].lines;
    SideLinesPrefix(ss, side);
    if ss[0].kind == C.Equal {
      EqualTexts(lines, l, r, side);
    } else if StartsWithPair(ss) {
      PairedTexts(lines, ss[1].lines, l, r, side);
    } else if ss[0].kind == C.Removed {
      RemovedTexts(lines, l, side);
    } else {
      AddedTexts(lines, r, side);
    }
  }

  /** The numbers the first block shows in a column: one per line it shows there, from the counter on. */
  lemma BlockNums(ss: seq<Span>, l: nat, r: nat, side: Side)
    requires |ss| > 0
    ensures Nums(Block(ss, l, r), side) == Iota(Start(l, r, side), Advance(ss, side))
    ensures Advance(ss, side) == |SideLines(ss[..Width(ss)], side)|
  {
    var lines := ss[0].lines;
    SideLinesPrefix(ss, side);
    if ss[0].kind == C.Equal {
      EqualNums(lines, l, r, side);
    } else if StartsWithPair(ss) {
      PairedNums(lines, ss[1].lines, l, r, side);
    } else if ss[0].kind == C.Removed {
      RemovedNums(lines, l, side);
    } else {
      AddedNums(lines, r, side);
    }
  }

  /**
   * Reconstruction: reading the non-null texts of the left column top to
   * bottom gives the lines of every non-added span in order, and the right
   * column gives the lines of every non-removed span.
   */
  lemma {:induction false} Reconstruction(ss: seq<Span>, l: nat, r: nat, side: Side)
    ensures Texts(RowsOf(ss, l, r), side) == SideLines(ss, side)
    decreases |ss|
  {
    if |ss| > 0 {
      var w := Width(ss);
      var l', r' := l + LeftAdvance(ss), r + RightAdvance(ss);
      var blk, tail := Block(ss, l, r), RowsOf(ss[w..], l', r');
      RowsOfUnfold(ss, l, r);
      Reconstruction(ss[w..], l', r', side);
      BlockTexts(ss, l, r, side);
      TextsAppend(blk, tail, side);
      SideLinesSplit(ss, w, side);
    }
  }

  /**
   * Numbering: over the rows whose left side is present, `leftLineNum` runs
   * l, l + 1, l + 2, ... with no gap and no repetition, one number per left
   * line; the same holds for the right column.
   */
  lemma {:induction false} Numbering(ss: seq<Span>, l: nat, r: nat, side: Side)
    ensures Nums(RowsOf(ss, l, r), side) == Iota(Start(l, r, side), |SideLines(ss, side)|)
    decreases |ss|
  {
    if |ss| > 0 {
      var w, l', r' := Width(ss), l + LeftAdvance(ss), r + RightAdvance(ss);
      var s, a, b := Start(l, r, side), Advance(ss, side), |SideLines(ss[w..], side)|;
      Numbering(ss[w..], l', r', side);
      NumsUnfold(ss, l, r, side);
      assert Start(l', r', side) == s + a;
      IotaAppend(s, a, b);
    } else {
      assert Iota(Start(l, r, side), 0) == [];
    }
  }

  /** A column's numbers: those of the first block, then those of the rest. */
  lemma NumsUnfold(ss: seq<Span>, l: nat, r: nat, side: Side)
    requires |ss| > 0
    ensures var w, l', r' := Width(ss), l + LeftAdvance(ss), r + RightAdvance(ss);
      && Nums(RowsOf(ss, l, r), side) == Iota(Start(l, r, side), Advance(ss, side)) + Nums(RowsOf(ss[w..], l', r'), side)
      && |SideLines(ss, side)| == Advance(ss, side) + |SideLines(ss[w..], side)|
  {
    var w, l', r' := Width(ss), l + LeftAdvance(ss), r + RightAdvance(ss);
    RowsOfUnfold(ss, l, r);
    BlockNums(ss, l, r, side);
    NumsAppend(Block(ss, l, r), RowsOf(ss[w..], l', r'), side);
    SideLinesSplit(ss, w, side);
  }

  /** Splitting the spans at `w` splits their lines on either side. */
  lemma SideLinesSplit(ss: seq<Span>, w: nat, side: Side)
    requires w <= |ss|
    ensures SideLines(ss, side) == SideLines(ss[..w], side) + SideLines(ss[w..], side)
  {
    SideLinesAppend(ss[..w], ss[w..], side);
    assert ss[..w] + ss[w..] == ss;
  }


  // ---------------------------------------------------------------------
  // Every row is well formed.

  /**
   * A text is null exactly when its line number is; at least one side is
   * present; `equal` rows show the same line on both sides; `removed` rows
   * are left-only and `added` rows right-only.
   */
  predicate WellFormed(row: DiffRow)
  {
    && (row.left.None? <==> row.leftLineNum.None?)
    && (row.right.None? <==> row.rightLineNum.None?)
    && (row.left.Some? || row.right.Some?)
    && (row.rowType == Equal ==> row.left.Some? && row.left == row.right)
    && (row.rowType == Removed ==> row.left.Some? && row.right.None?)
    && (row.rowType == Added ==> row.left.None? && row.right.Some?)
  }

  predicate AllWellFormed(rows: seq<DiffRow>)
  {
    forall k :: 0 <= k < |rows| ==> WellFormed(rows[k])
  }

  lemma {:induction false} PairedWellFormed(rl: seq<string>, al: seq<string>, l: nat, r: nat)
    ensures AllWellFormed(PairedRows(rl, al, l, r))
    decreases |rl| + |al|
  {
    if |rl| > 0 || |al| > 0 {
      var l', r' := if |rl| > 0 then l + 1 else l, if |al| > 0 then r + 1 else r;
      PairedWellFormed(Tail(rl), Tail(al), l', r');
    }
  }

  lemma BlockWellFormed(ss: seq<Span>, l: nat, r: nat)
    requires |ss| > 0
    ensures AllWellFormed(Block(ss, l, r))
  {
    var lines := ss[0].lines;
    if ss[0].kind == C.Equal {
      EqualWellFormed(lines, l, r);
    } else if StartsWithPair(ss) {
      PairedWellFormed(lines, ss[1].lines, l, r);
    } else if ss[0].kind == C.Removed {
      RemovedWellFormed(lines, l);
    } else {
      AddedWellFormed(lines, r);
    }
  }

  /** Every row the aligner emits is well formed. */
  lemma {:induction false} WellFormedRows(ss: seq<Span>, l: nat, r: nat)
    ensures AllWellFormed(RowsOf(ss, l, r))
    decreases |ss|
  {
    if |ss| > 0 {
      var w := Width(ss);
      WellFormedRows(ss[w..], l + LeftAdvance(ss), r + RightAdvance(ss));
      BlockWellFormed(ss, l, r);
    }
  }

  lemma {:induction false} EqualWellFormed(ls: seq<string>, l: nat, r: nat)
    ensures AllWellFormed(EqualRows(ls, l, r))
    decreases |ls|
  {
    if |ls| > 0 { EqualWellFormed(ls[1..], l + 1, r + 1); }
  }

  lemma {:induction false} RemovedWellFormed(ls: seq<string>, l: nat)
    ensures AllWellFormed(RemovedRows(ls, l))
    decreases |ls|
  {
    if |ls| > 0 { RemovedWellFormed(ls[1..], l + 1); }
  }

  lemma {:induction false} AddedWellFormed(ls: seq<string>, r: nat)
    ensures AllWellFormed(AddedRows(ls, r))
    decreases |ls|
  {
    if |ls| > 0 { AddedWellFormed(ls[1..], r + 1); }
  }

  // ---------------------------------------------------------------------
  // The pairing rule: what each block consists of, and how far it looks.

  /** Every row of `rows` has type `t`. */
  predicate AllOfType(rows: seq<DiffRow>, t: RowType)
  {
    forall k :: 0 <= k < |rows| ==> rows[k].rowType == t
  }

  lemma {:induction false} EqualShape(ls: seq<string>, l: nat, r: nat)
    ensures |EqualRows(ls, l, r)| == |ls| && AllOfType(EqualRows(ls, l, r), Equal)
    decreases |ls|
  {
    if |ls| > 0 { EqualShape(ls[1..], l + 1, r + 1); }
  }

  lemma {:induction false} RemovedShape(ls: seq<string>, l: nat)
    ensures |RemovedRows(ls, l)| == |ls| && AllOfType(RemovedRows(ls, l), Removed)
    decreases |ls|
  {
    if |ls| > 0 { RemovedShape(ls[1..], l + 1); }
  }

  lemma {:induction false} AddedShape(ls: seq<string>, r: nat)
    ensures |AddedRows(ls, r)| == |ls| && AllOfType(AddedRows(ls, r), Added)
    decreases |ls|
  {
    if |ls| > 0 { AddedShape(ls[1..], r + 1); }
  }

  /** A replace pair gives `max(|removed|, |added|)` rows, all `changed`. */
  lemma {:induction false} PairedShape(rl: seq<string>, al: seq<string>, l: nat, r: nat)
    ensures |PairedRows(rl, al, l, r)| == Max(|rl|, |al|)
    ensures AllOfType(PairedRows(rl, al, l, r), Changed)
    decreases |rl| + |al|
  {
    if |rl| > 0 || |al| > 0 {
      var l', r' := if |rl| > 0 then l + 1 else l, if |al| > 0 then r + 1 else r;
      PairedCons(rl, al, l, r);
      PairedShape(Tail(rl), Tail(al), l', r');
    }
  }

  /**
   * The pairing rule.  A removed span immediately followed by an added span
   * becomes `max` of their line counts `changed` rows and consumes both; a
   * removed span without an added span after it becomes one `removed` row
   * per line; an added span left over becomes one `added` row per line; an
   * equal span one `equal` row per line.  Every other block consumes one span.
   */
  lemma BlockShape(ss: seq<Span>, l: nat, r: nat)
    requires |ss| > 0
    ensures StartsWithPair(ss) ==>
              && Width(ss) == 2
              && |Block(ss, l, r)| == Max(|ss[0].lines|, |ss[1].lines|)
              && AllOfType(Block(ss, l, r), Changed)
    ensures !StartsWithPair(ss) ==> Width(ss) == 1 && |Block(ss, l, r)| == |ss[0].lines|
    ensures ss[0].kind == C.Equal ==> AllOfType(Block(ss, l, r), Equal)
    ensures ss[0].kind == C.Removed && !StartsWithPair(ss) ==> AllOfType(Block(ss, l, r), Removed)
    ensures ss[0].kind == C.Added ==> AllOfType(Block(ss, l, r), Added)
  {
    var lines := ss[0].lines;
    if ss[0].kind == C.Equal {
      EqualShape(lines, l, r);
    } else if StartsWithPair(ss) {
      PairedShape(lines, ss[1].lines, l, r);
    } else if ss[0].kind == C.Removed {
      RemovedShape(lines, l);
    } else {
      AddedShape(lines, r);
    }
  }

  /**
   * Lookahead never goes past the next span: the first block, and how far
   * it moves both counters, depend on the first two spans only.
   */
  lemma OneAhead(ss: seq<Span>, l: nat, r: nat)
    requires |ss| > 0
    ensures var front := ss[..Min(2, |ss|)];
      && Width(ss) <= |front|
      && Block(ss, l, r) == Block(front, l, r)
      && LeftAdvance(ss) == LeftAdvance(front) && RightAdvance(ss) == RightAdvance(front)
  {
    var front := ss[..Min(2, |ss|)];
    assert front[0] == ss[0];
    if |ss| > 1 {
      assert front[1] == ss[1];
    }
  }

}
