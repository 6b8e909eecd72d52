/**
 * The `DiffView` component (DiffView.tsx lines 89-221) without its markup:
 * the added/removed statistics, the choice between "No differences found."
 * and the table, the statistics badges, and for every row the red/green
 * shading and the "-"/"+" marker of each column.
 */
module DiffView {
  import opened Wrappers
  import opened Lines
  import C = Changes
  import opened Rows

  // ---------------------------------------------------------------------
  // Row classification (lines 137-138 and the cells at 143-211).

  /** `isRemoved`: the row's type is `removed` or `changed`. */
  predicate IsRemoved(row: DiffRow)
  {
    row.rowType == Removed || row.rowType == Changed
  }

  /** `isAdded`: the row's type is `added` or `changed`. */
  predicate IsAdded(row: DiffRow)
  {
    row.rowType == Added || row.rowType == Changed
  }

  /**
   * Whether a column of the row is styled as a change and carries a marker:
   * the left column when `isRemoved && row.left !== null`, the right column
   * when `isAdded && row.right !== null`.
   */
  predicate Marked(row: DiffRow, side: Side)
  {
    if side == Left then IsRemoved(row) && row.left.Some? else IsAdded(row) && row.right.Some?
  }

  /** The background of a cell: red/green for a change, dimmed for a missing line, plain otherwise. */
  datatype Shade = Highlighted | Plain | Blank

  /** What one column of a row shows: line number, marker, text and shade. */
  datatype Cell = Cell(lineNum: Option<nat>, marker: Option<char>, text: Option<string>, shade: Shade)

  /** The marker of a column: "-" on the left, "+" on the right. */
  function MarkerChar(side: Side): char
  {
    if side == Left then '-' else '+'
  }

  /**
   * The two cells (number and content) of one column.  The marker is drawn
   * inside the text, so it only appears when the text is there.
   */
  function CellOf(row: DiffRow, side: Side): (c: Cell)
    ensures c.lineNum == Num(row, side) && c.text == Text(row, side)
    ensures c.marker.Some? ==> c.text.Some?
  {
    var text := Text(row, side);
    Cell(Num(row, side),
         if text.Some? && Marked(row, side) then Some(MarkerChar(side)) else None,
         text,
         if text.None? then Blank else if Marked(row, side) then Highlighted else Plain)
  }

  /**
   * The marker rule on a well-formed row: the left column carries "-" exactly
   * on `removed` rows and on `changed` rows with a left line, the right column
   * carries "+" exactly on `added` rows and on `changed` rows with a right
   * line; `equal` rows are never marked, and a cell is blank exactly when its
   * line number is missing.
   */
  lemma MarkerRule(row: DiffRow, side: Side)
    requires WellFormed(row)
    ensures var c := CellOf(row, side);
      && (c.marker == Some(MarkerChar(side)) <==>
            (row.rowType == (if side == Left then Removed else Added)
             || (row.rowType == Changed && Text(row, side).Some?)))
      && (c.marker.Some? <==> c.shade == Highlighted)
      && (row.rowType == Equal ==> c.marker.None? && c.shade == Plain)
      && (c.shade == Blank <==> c.lineNum.None?)
  {
  }

  // ---------------------------------------------------------------------
  // Markers across the whole table.

  /** How many rows of `rows` carry a marker in the column `side`. */
  function MarkCount(rows: seq<DiffRow>, side: Side): nat
    decreases |rows|
  {
    if |rows| == 0 then 0
    else (if Marked(rows[0], side) then 1 else 0) + MarkCount(rows[1..], side)
  }

  /** The kind of span whose lines a column marks: removed on the left, added on the right. */
  function MarkedKind(side: Side): C.Kind
  {
    if side == Left then C.Removed else C.Added
  }

  /** The number of lines in the spans of kind `k`. */
  function KindLines(ss: seq<Span>, k: C.Kind): nat
    decreases |ss|
  {
    if |ss| == 0 then 0
    else (if ss[0].kind == k then |ss[0].lines| else 0) + KindLines(ss[1..], k)
  }

  lemma {:induction false} MarkCountAppend(a: seq<DiffRow>, b: seq<DiffRow>, side: Side)
    ensures MarkCount(a + b, side) == MarkCount(a, side) + MarkCount(b, side)
    decreases |a|
  {
    if |a| > 0 {
      assert (a + b)[1..] == a[1..] + b;
      MarkCountAppend(a[1..], b, side);
    } else {
      assert a + b == b;
    }
  }

  lemma {:induction false} EqualMarks(ls: seq<string>, l: nat, r: nat, side: Side)
    ensures MarkCount(EqualRows(ls, l, r), side) == 0
    decreases |ls|
  {
    if |ls| > 0 { EqualMarks(ls[1..], l + 1, r + 1, side); }
  }

  lemma {:induction false} RemovedMarks(ls: seq<string>, l: nat, side: Side)
    ensures MarkCount(RemovedRows(ls, l), side) == if side == Left then |ls| else 0
    decreases |ls|
  {
    if |ls| > 0 { RemovedMarks(ls[1..], l + 1, side); }
  }

  lemma {:induction false} AddedMarks(ls: seq<string>, r: nat, side: Side)
    ensures MarkCount(AddedRows(ls, r), side) == if side == Right then |ls| else 0
    decreases |ls|
  {
    if |ls| > 0 { AddedMarks(ls[1..], r + 1, side); }
  }

  lemma {:induction false} PairedMarks(rl: seq<string>, al: seq<string>, l: nat, r: nat, side: Side)
    ensures MarkCount(PairedRows(rl, al, l, r), side) == if side == Left then |rl| else |al|
    decreases |rl| + |al|
  {
    if |rl| > 0 || |al| > 0 {
      var l', r' := if |rl| > 0 then l + 1 else l, if |al| > 0 then r + 1 else r;
      PairedCons(rl, al, l, r);
      PairedMarks(Tail(rl), Tail(al), l', r', side);
    }
  }

  lemma {:induction false} KindLinesAppend(a: seq<Span>, b: seq<Span>, k: C.Kind)
    ensures KindLines(a + b, k) == KindLines(a, k) + KindLines(b, k)
    decreases |a|
  {
    if |a| > 0 {
      assert (a + b)[1..] == a[1..] + b;
      KindLinesAppend(a[1..], b, k);
    } else {
      assert a + b == b;
    }
  }

  /** The markers of the first block: one per line of the marked kind among the spans it consumes. */
  lemma BlockMarks(ss: seq<Span>, l: nat, r: nat, side: Side)
    requires |ss| > 0
    ensures MarkCount(Block(ss, l, r), side) == KindLines(ss[..Width(ss)], MarkedKind(side))
  {
    var lines, k := ss[0].lines, MarkedKind(side);
    assert ss[..1][1..] == [];
    if |ss| > 1 {
      assert ss[..2][1..] == ss[1..2];
      assert ss[1..2][1..] == [];
    }
    if ss[0].kind == C.Equal {
      EqualMarks(lines, l, r, side);
    } else if StartsWithPair(ss) {
      PairedMarks(lines, ss[1].lines, l, r, side);
    } else if ss[0].kind == C.Removed {
      RemovedMarks(lines, l, side);
    } else {
      AddedMarks(lines, r, side);
    }
  }

  /**
   * The table carries one "-" per line of the removed spans and one "+" per
   * line of the added spans, whether or not they were paired.
   */
  lemma {:induction false} TableMarks(ss: seq<Span>, l: nat, r: nat, side: Side)
    ensures MarkCount(RowsOf(ss, l, r), side) == KindLines(ss, MarkedKind(side))
    decreases |ss|
  {
    if |ss| > 0 {
      var w, l', r' := Width(ss), l + LeftAdvance(ss), r + RightAdvance(ss);
      RowsOfUnfold(ss, l, r);
      TableMarks(ss[w..], l', r', side);
      BlockMarks(ss, l, r, side);
      MarkCountAppend(Block(ss, l, r), RowsOf(ss[w..], l', r'), side);
      KindLinesAppend(ss[..w], ss[w..], MarkedKind(side));
      assert ss[..w] + ss[w..] == ss;
    }
  }

  // ---------------------------------------------------------------------
  // Statistics against the table.

  /**
   * The line-diff library's promise about its spans, which this model takes
   * as given: an added or removed span's `count` is the number of lines of
   * its value.
   */
  predicate CountsAreLines(cs: seq<C.Change>)
  {
    forall k :: 0 <= k < |cs| && cs[k].kind != C.Equal ==> cs[k].count == Some(|SplitLines(cs[k].value)|)
  }

  /** Under that promise, summing the counts of one kind sums the split lines of that kind. */
  lemma {:induction false} SumCountsIsLines(cs: seq<C.Change>, k: C.Kind)
    requires k != C.Equal && CountsAreLines(cs)
    ensures C.SumCounts(C.OfKind(cs, k)) == KindLines(Spans(cs), k)
    decreases |cs|
  {
    if |cs| > 0 {
      assert Spans(cs)[1..] == Spans(cs[1..]);
      assert CountsAreLines(cs[1..]) by {
        forall j | 0 <= j < |cs[1..]| && cs[1..][j].kind != C.Equal
          ensures cs[1..][j].count == Some(|SplitLines(cs[1..][j].value)|)
        {
          assert cs[1..][j] == cs[j + 1];
        }
      }
      SumCountsIsLines(cs[1..], k);
      var rest := C.OfKind(cs[1..], k);
      if cs[0].kind == k {
        assert ([cs[0]] + rest)[1..] == rest;
      }
    }
  }

  /**
   * The statistics badge counts what the table marks: `stats.removed` is the
   * number of "-" markers and `stats.added` the number of "+" markers, as
   * long as the library's counts are line counts.
   */
  lemma StatsMatchMarks(cs: seq<C.Change>)
    requires CountsAreLines(cs)
    ensures C.Stats(cs).removed == MarkCount(RowsOf(Spans(cs), 1, 1), Left)
    ensures C.Stats(cs).added == MarkCount(RowsOf(Spans(cs), 1, 1), Right)
  {
    SumCountsIsLines(cs, C.Removed);
    SumCountsIsLines(cs, C.Added);
    TableMarks(Spans(cs), 1, 1, Left);
    TableMarks(Spans(cs), 1, 1, Right);
  }

  // ---------------------------------------------------------------------
  // What the component renders.

  /** `hasChanges` (line 98). */
  predicate HasChanges(stats: C.DiffStats)
  {
    stats.added > 0 || stats.removed > 0
  }

  /**
   * The component's output: the "No differences found." message, or the
   * statistics bar (the "+N" and "-N" badges when non-zero, "Identical"
   * when neither is) above one pair of columns per row.
   */
  datatype Screen =
    | NoDifferences
    | Table(addedBadge: Option<nat>, removedBadge: Option<nat>, identical: bool, cells: seq<(Cell, Cell)>)

  /** A badge is shown with its number when the number is positive (lines 113-122). */
  function Badge(n: nat): Option<nat>
  {
    if n > 0 then Some(n) else None
  }

  /** The screen for a diff of `original` against `modified` whose spans are `changes`. */
  function ScreenOf(original: string, modified: string, changes: seq<C.Change>): Screen
  {
    var stats := C.Stats(changes);
    if !HasChanges(stats) && original == modified then NoDifferences
    else
      var rows := RowsOf(Spans(changes), 1, 1);
      Table(Badge(stats.added), Badge(stats.removed), !HasChanges(stats),
            seq(|rows|, k requires 0 <= k < |rows| => (CellOf(rows[k], Left), CellOf(rows[k], Right))))
  }

  /**
   * `DiffView`: the rows come from the aligner's loop, the statistics from
   * the spans, and the cells from mapping every row.  `diffLines` is not
   * part of this model: its spans are the parameter `changes`.
   */
  method Render(original: string, modified: string, changes: seq<C.Change>) returns (screen: Screen)
    ensures screen == ScreenOf(original, modified, changes)
    ensures screen.NoDifferences? <==> !HasChanges(C.Stats(changes)) && original == modified
  {
    var rows := BuildRows(changes);
    var stats := C.Stats(changes);
    var hasChanges := stats.added > 0 || stats.removed > 0;
    if !hasChanges && original == modified {
      screen := NoDifferences;
    } else {
      var cells := seq(|rows|, k requires 0 <= k < |rows| => (CellOf(rows[k], Left), CellOf(rows[k], Right)));
      screen := Table(Badge(stats.added), Badge(stats.removed), !hasChanges, cells);
    }
  }

  /**
   * "No differences found." is shown exactly when the two texts are equal
   * and no added or removed span carries a positive count; in particular
   * the table is always shown for two different texts.
   */
  lemma NoDifferencesIff(original: string, modified: string, changes: seq<C.Change>)
    ensures ScreenOf(original, modified, changes).NoDifferences?
            <==> original == modified
                 && (forall j :: 0 <= j < |changes| ==> !C.Counts(changes[j], C.Added) && !C.Counts(changes[j], C.Removed))
  {
    C.StatsZero(changes);
  }

  /**
   * In a table, the badges agree with the markers: "+N" is shown exactly
   * when there are N > 0 "+" markers, "-N" exactly when there are N > 0 "-"
   * markers, and "Identical" exactly when there is no marker at all; each
   * row of the table is one pair of cells.
   */
  lemma TableBadges(original: string, modified: string, changes: seq<C.Change>)
    requires CountsAreLines(changes)
    ensures var rows := RowsOf(Spans(changes), 1, 1);
      match ScreenOf(original, modified, changes)
      case NoDifferences => MarkCount(rows, Left) == 0 && MarkCount(rows, Right) == 0
      case Table(added, removed, identical, cells) =>
        && added == Badge(MarkCount(rows, Right))
        && removed == Badge(MarkCount(rows, Left))
        && (identical <==> MarkCount(rows, Left) == 0 && MarkCount(rows, Right) == 0)
        && |cells| == |rows|
  {
    StatsMatchMarks(changes);
  }
}
