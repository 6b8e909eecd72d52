/**
 * The line splitter that the row aligner applies to every span value:
 * `value.replace(/\n$/, "").split("\n")`.  Without the `m` flag the regular
 * expression `\n$` only matches a line feed that is the very last character,
 * so at most one line feed is removed; JavaScript's `split` with a non-empty
 * separator never returns an empty array (`"".split("\n")` is `[""]`).
 */
module Lines {

  const LF: char := '\n'

  /** `s.replace(/\n$/, "")`: drop one trailing line feed, if there is one. */
  function StripTrailingLF(s: string): (r: string)
    ensures s == r || s == r + [LF]
    ensures r != s <==> (|s| > 0 && s[|s| - 1] == LF)
  {
    if |s| > 0 && s[|s| - 1] == LF then s[..|s| - 1] else s
  }

  /** `s.split("\n")`: the maximal line-feed-free pieces of `s`, in order. */
  function Split(s: string): (r: seq<string>)
    ensures |r| >= 1
    decreases |s|
  {
    if |s| == 0 then [""]
    else
      var rest := Split(s[1..]);
      if s[0] == LF then [""] + rest
      else [[s[0]] + rest[0]] + rest[1..]
  }

  /** `ls.join("\n")`. */
  function Join(ls: seq<string>): string
    decreases |ls|
  {
    if |ls| == 0 then ""
    else if |ls| == 1 then ls[0]
    else ls[0] + [LF] + Join(ls[1..])
  }

  /** The lines one span contributes to the table (DiffView.tsx lines 24, 37, 38, 54, 67). */
  function SplitLines(value: string): (r: seq<string>)
    ensures |r| >= 1
  {
    Split(StripTrailingLF(value))
  }

  /**
   * The lines of a value are line-feed free, and joining them with line
   * feeds gives the value back without its trailing line feed.
   */
  lemma SplitLinesJoin(value: string)
    ensures forall k :: 0 <= k < |SplitLines(value)| ==> LF !in SplitLines(value)[k]
    ensures Join(SplitLines(value)) == StripTrailingLF(value)
  {
    SplitFree(StripTrailingLF(value));
    JoinSplit(StripTrailingLF(value));
  }

  /** No piece of a split contains the separator. */
  lemma {:induction false} SplitFree(s: string)
    ensures forall k :: 0 <= k < |Split(s)| ==> LF !in Split(s)[k]
    decreases |s|
  {
    if |s| > 0 {
      SplitFree(s[1..]);
      var rest := Split(s[1..]);
      if s[0] != LF {
        assert LF !in [s[0]] + rest[0];
        assert forall k :: 1 <= k < |Split(s)| ==> Split(s)[k] == rest[k];
      } else {
        assert forall k :: 1 <= k < |Split(s)| ==> Split(s)[k] == rest[k - 1];
      }
    }
  }

  /** Joining the pieces with line feeds gives the string back. */
  lemma {:induction false} JoinSplit(s: string)
    ensures Join(Split(s)) == s
    decreases |s|
  {
    if |s| > 0 {
      var rest := Split(s[1..]);
      JoinSplit(s[1..]);
      if s[0] == LF {
        assert Split(s) == [""] + rest;
        assert Join(Split(s)) == [LF] + Join(rest);
      } else {
        var r := Split(s);
        assert r == [[s[0]] + rest[0]] + rest[1..];
        if |rest| == 1 {
          assert Join(r) == [s[0]] + rest[0];
        } else {
          assert r[1..] == rest[1..];
          assert Join(r) == [s[0]] + rest[0] + [LF] + Join(rest[1..]);
        }
        assert s == [s[0]] + s[1..];
      }
    }
  }

  /** Splitting a join of line-feed-free lines gives the lines back. */
  lemma {:induction false} SplitJoin(ls: seq<string>)
    requires |ls| >= 1
    requires forall k :: 0 <= k < |ls| ==> LF !in ls[k]
    ensures Split(Join(ls)) == ls
    decreases |ls|, |ls[0]|
  {
    if |ls[0]| == 0 {
      if |ls| > 1 {
        SplitJoin(ls[1..]);
        var s := Join(ls);
        assert s == [LF] + Join(ls[1..]);
        assert s[1..] == Join(ls[1..]);
        assert [""] + ls[1..] == ls;
      }
    } else {
      var c := ls[0][0];
      var ls' := [ls[0][1..]] + ls[1..];
      assert ls'[1..] == ls[1..];
      assert forall k :: 0 <= k < |ls'| ==> LF !in ls'[k] by {
        forall k | 0 <= k < |ls'| ensures LF !in ls'[k] {
          if k == 0 { assert ls[0] == [c] + ls'[0]; } else { assert ls'[k] == ls[k]; }
        }
      }
      SplitJoin(ls');
      var s := Join(ls);
      assert ls[0] == [c] + ls'[0];
      assert s == [c] + Join(ls') by {
        if |ls| == 1 {
        } else {
          assert Join(ls') == ls'[0] + [LF] + Join(ls[1..]);
        }
      }
      assert s[1..] == Join(ls');
      assert c != LF;
      assert [[c] + ls'[0]] + ls'[1..] == ls;
    }
  }
}
