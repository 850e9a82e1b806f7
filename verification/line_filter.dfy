/**
 The content of one processed file: its text split on line feeds, keeping
 only the lines whose trimmed form is non-empty. Kept lines are the split
 segments themselves, untrimmed, so the carriage return of a CRLF line
 stays on a non-blank line, while a segment holding only "\r" is dropped.
 */
module LineFilter {
  import opened JsString

  /** A line the filter keeps: one with a character that is not whitespace. */
  predicate Kept(line: string) {
    !AllWhitespace(line)
  }

  /** `Kept` is the filter's own test, `line.trim().length > 0`, and holds
      exactly of the lines with a visible character. */
  lemma KeptIsTrimTest(line: string)
    ensures Kept(line) <==> |Trim(line)| > 0
    ensures Kept(line) <==> exists i :: 0 <= i < |line| && !IsWhitespace(line[i])
  {
  }

  /** `xs.filter(keep)`: the elements passing `keep`, in their original order. */
  function Filter<T>(xs: seq<T>, keep: T -> bool): (ys: seq<T>)
    ensures |ys| <= |xs|
    ensures forall k :: 0 <= k < |ys| ==> keep(ys[k])
  {
    if |xs| == 0 then []
    else
      var rest := Filter(xs[1..], keep);
      if keep(xs[0]) then [xs[0]] + rest else rest
  }

  /** Positions listed in strictly increasing order. */
  ghost predicate Increasing(idx: seq<nat>) {
    forall k, l :: 0 <= k < l < |idx| ==> idx[k] < idx[l]
  }

  /** `ys` is `xs` read at the positions `idx`. */
  ghost predicate Picks<T>(ys: seq<T>, xs: seq<T>, idx: seq<nat>) {
    && |idx| == |ys|
    && forall k :: 0 <= k < |idx| ==> idx[k] < |xs| && ys[k] == xs[idx[k]]
  }

  /** `idx` lists exactly the positions of `xs` whose element passes `keep`. */
  ghost predicate Covers<T>(xs: seq<T>, keep: T -> bool, idx: seq<nat>) {
    forall i :: 0 <= i < |xs| ==> (keep(xs[i]) <==> i in idx)
  }

  /** `idx` lists, in increasing order, the positions of `xs` that pass
      `keep`, and `ys` holds those elements verbatim in that order. */
  ghost predicate FilteredVia<T>(ys: seq<T>, xs: seq<T>, keep: T -> bool, idx: seq<nat>) {
    Increasing(idx) && Picks(ys, xs, idx) && Covers(xs, keep, idx)
  }

  /** Every position moved one place right. */
  function ShiftUp(idx: seq<nat>): (up: seq<nat>)
    ensures |up| == |idx|
    ensures forall k :: 0 <= k < |idx| ==> up[k] == idx[k] + 1
  {
    seq(|idx|, k requires 0 <= k < |idx| => idx[k] + 1)
  }

  /** Positions moved one place right stay increasing. */
  lemma ShiftUpIncreasing(idx: seq<nat>)
    requires Increasing(idx)
    ensures Increasing(ShiftUp(idx))
  {
  }

  /** Positions read from the elements after the first, moved one place
      right, read the same elements from the whole sequence. */
  lemma ShiftUpPicks<T>(ys: seq<T>, xs: seq<T>, idx: seq<nat>)
    requires |xs| > 0
    requires Picks(ys, xs[1..], idx)
    ensures Picks(ys, xs, ShiftUp(idx))
  {
  }

  /** Passing positions of the elements after the first, moved one place
      right, are the passing positions of the whole sequence other than 0. */
  lemma ShiftUpCovers<T>(xs: seq<T>, keep: T -> bool, idx: seq<nat>)
    requires |xs| > 0
    requires Covers(xs[1..], keep, idx)
    ensures forall i :: 1 <= i < |xs| ==> (keep(xs[i]) <==> i in ShiftUp(idx))
    ensures 0 !in ShiftUp(idx)
  {
    var up := ShiftUp(idx);
    forall i | 1 <= i < |xs|
      ensures keep(xs[i]) <==> i in up
    {
      assert xs[i] == xs[1..][i - 1];
      if i - 1 in idx {
        var k :| 0 <= k < |idx| && idx[k] == i - 1;
        assert up[k] == i;
      }
      if i in up {
        var k :| 0 <= k < |up| && up[k] == i;
        assert idx[k] == i - 1;
      }
    }
  }

  /** A witness for the elements after the first, moved one place right,
      is a witness for the whole sequence except at position 0. */
  lemma ShiftUpWitness<T>(ys: seq<T>, xs: seq<T>, keep: T -> bool, idx: seq<nat>)
    requires |xs| > 0
    requires FilteredVia(ys, xs[1..], keep, idx)
    ensures Increasing(ShiftUp(idx))
    ensures Picks(ys, xs, ShiftUp(idx))
    ensures forall i :: 1 <= i < |xs| ==> (keep(xs[i]) <==> i in ShiftUp(idx))
    ensures 0 !in ShiftUp(idx)
  {
    ShiftUpIncreasing(idx);
    ShiftUpPicks(ys, xs, idx);
    ShiftUpCovers(xs, keep, idx);
  }

  /** A passing first element at position 0 in front of a witness for the rest. */
  lemma PrependFirst<T>(ys: seq<T>, xs: seq<T>, keep: T -> bool, up: seq<nat>)
    requires |xs| > 0 && keep(xs[0])
    requires Increasing(up) && Picks(ys, xs, up) && 0 !in up
    requires forall i :: 1 <= i < |xs| ==> (keep(xs[i]) <==> i in up)
    ensures FilteredVia([xs[0]] + ys, xs, keep, [0] + up)
  {
    var idx := [0] + up;
    forall k | 0 <= k < |up|
      ensures up[k] >= 1
    {
      assert up[k] != 0;
    }
    assert Increasing(idx);
    assert Picks([xs[0]] + ys, xs, idx);
    assert forall i :: 1 <= i < |xs| ==> (i in idx <==> i in up);
  }

  /** The filter's output is an order-preserving subsequence of its input
      holding every passing element and nothing else; the witness is the
      list of kept positions. */
  lemma {:induction false} FilterIsSubsequence<T>(xs: seq<T>, keep: T -> bool) returns (idx: seq<nat>)
    ensures FilteredVia(Filter(xs, keep), xs, keep, idx)
  {
    if |xs| == 0 {
      idx := [];
    } else {
      var tail := Filter(xs[1..], keep);
      var inner := FilterIsSubsequence(xs[1..], keep);
      ShiftUpWitness(tail, xs, keep, inner);
      var up := ShiftUp(inner);
      if keep(xs[0]) {
        PrependFirst(tail, xs, keep, up);
        idx := [0] + up;
      } else {
        idx := up;
      }
    }
  }

  /** Every position moved one place left. */
  function ShiftDown(idx: seq<nat>): (down: seq<nat>)
    requires forall k :: 0 <= k < |idx| ==> idx[k] >= 1
    ensures |down| == |idx|
    ensures forall k :: 0 <= k < |idx| ==> down[k] == idx[k] - 1
  {
    seq(|idx|, k requires 0 <= k < |idx| => idx[k] - 1)
  }

  /** Moving positions that avoid 0 one place left keeps them increasing. */
  lemma ShiftDownIncreasing(idx: seq<nat>)
    requires forall k :: 0 <= k < |idx| ==> idx[k] >= 1
    requires Increasing(idx)
    ensures Increasing(ShiftDown(idx))
  {
  }

  /** Moving positions that avoid 0 one place left reads the same elements
      from the sequence without its first element. */
  lemma ShiftDownPicks<T>(ys: seq<T>, xs: seq<T>, idx: seq<nat>)
    requires |xs| > 0
    requires forall k :: 0 <= k < |idx| ==> idx[k] >= 1
    requires Picks(ys, xs, idx)
    ensures Picks(ys, xs[1..], ShiftDown(idx))
  {
  }

  /** Moving positions that avoid 0 one place left lists the passing
      positions of the sequence without its first element. */
  lemma ShiftDownCovers<T>(xs: seq<T>, keep: T -> bool, idx: seq<nat>)
    requires |xs| > 0
    requires forall k :: 0 <= k < |idx| ==> idx[k] >= 1
    requires forall i :: 1 <= i < |xs| ==> (keep(xs[i]) <==> i in idx)
    ensures Covers(xs[1..], keep, ShiftDown(idx))
  {
    var down := ShiftDown(idx);
    forall i | 0 <= i < |xs| - 1
      ensures keep(xs[1..][i]) <==> i in down
    {
      assert xs[1..][i] == xs[i + 1];
      if i + 1 in idx {
        var k :| 0 <= k < |idx| && idx[k] == i + 1;
        assert down[k] == i;
      }
      if i in down {
        var k :| 0 <= k < |down| && down[k] == i;
        assert idx[k] == i + 1;
      }
    }
  }

  /** A witness that avoids position 0, moved one place left, is a witness
      for the elements after the first. */
  lemma ShiftDownWitness<T>(ys: seq<T>, xs: seq<T>, keep: T -> bool, idx: seq<nat>)
    requires |xs| > 0
    requires forall k :: 0 <= k < |idx| ==> idx[k] >= 1
    requires Increasing(idx) && Picks(ys, xs, idx)
    requires forall i :: 1 <= i < |xs| ==> (keep(xs[i]) <==> i in idx)
    ensures FilteredVia(ys, xs[1..], keep, ShiftDown(idx))
  {
    ShiftDownIncreasing(idx);
    ShiftDownPicks(ys, xs, idx);
    ShiftDownCovers(xs, keep, idx);
  }

  /** Dropping the first position of a witness and shifting the rest down
      gives a witness for the elements after the first. */
  lemma TailWitness<T>(ys: seq<T>, xs: seq<T>, keep: T -> bool, idx: seq<nat>) returns (down: seq<nat>)
    requires |xs| > 0
    requires FilteredVia(ys, xs, keep, idx)
    ensures keep(xs[0]) ==> |ys| > 0 && ys[0] == xs[0] && FilteredVia(ys[1..], xs[1..], keep, down)
    ensures !keep(xs[0]) ==> FilteredVia(ys, xs[1..], keep, down)
  {
    if keep(xs[0]) {
      assert 0 in idx;
      assert idx[0] == 0;
      var rest := idx[1..];
      forall k | 0 <= k < |rest|
        ensures rest[k] >= 1
      {
        assert idx[0] < idx[k + 1];
      }
      assert idx == [0] + rest;
      ShiftDownWitness(ys[1..], xs, keep, rest);
      down := ShiftDown(rest);
    } else {
      forall k | 0 <= k < |idx|
        ensures idx[k] >= 1
      {
        assert idx[k] != 0;
      }
      ShiftDownWitness(ys, xs, keep, idx);
      down := ShiftDown(idx);
    }
  }

  /** The subsequence description determines the output: any sequence that
      holds exactly the passing elements, verbatim and in order, is the one
      the filter produces. */
  lemma {:induction false} FilterIsUnique<T>(ys: seq<T>, xs: seq<T>, keep: T -> bool, idx: seq<nat>)
    requires FilteredVia(ys, xs, keep, idx)
    ensures ys == Filter(xs, keep)
    decreases |xs|
  {
    if |xs| == 0 {
      assert |idx| == 0;
    } else {
      var down := TailWitness(ys, xs, keep, idx);
      if keep(xs[0]) {
        FilterIsUnique(ys[1..], xs[1..], keep, down);
        assert ys == [ys[0]] + ys[1..];
      } else {
        FilterIsUnique(ys, xs[1..], keep, down);
      }
    }
  }

  /** Both directions together: a sequence is the filter's output exactly
      when it is the order-preserving subsequence of the passing elements. */
  lemma FilterCharacterization<T>(ys: seq<T>, xs: seq<T>, keep: T -> bool)
    ensures ys == Filter(xs, keep) <==> exists idx :: FilteredVia(ys, xs, keep, idx)
  {
    if ys == Filter(xs, keep) {
      var idx := FilterIsSubsequence(xs, keep);
    }
    if exists idx :: FilteredVia(ys, xs, keep, idx) {
      var idx :| FilteredVia(ys, xs, keep, idx);
      FilterIsUnique(ys, xs, keep, idx);
    }
  }

  /** A sequence none of whose elements passes filters to nothing. */
  lemma {:induction false} NoneKept<T>(xs: seq<T>, keep: T -> bool)
    requires forall k :: 0 <= k < |xs| ==> !keep(xs[k])
    ensures Filter(xs, keep) == []
    decreases |xs|
  {
    if |xs| > 0 {
      NoneKept(xs[1..], keep);
    }
  }

  /** `text.split('\n').filter(line => line.trim().length > 0)`: at most
      as many lines as the text has segments, each with a non-empty trim. */
  function Content(text: string): (lines: seq<string>)
    ensures |lines| <= |Split(text, '\n')|
    ensures forall k :: 0 <= k < |lines| ==> |Trim(lines[k])| > 0
  {
    Filter(Split(text, '\n'), Kept)
  }

  /** A processed file's lines: each has a non-empty trim, a visible
      character and no line feed, and together they are the
      order-preserving subsequence of the split segments with a non-empty
      trim. */
  lemma ContentLines(text: string) returns (idx: seq<nat>)
    ensures forall k :: 0 <= k < |Content(text)| ==>
      && |Trim(Content(text)[k])| > 0
      && '\n' !in Content(text)[k]
      && exists i :: 0 <= i < |Content(text)[k]| && !IsWhitespace(Content(text)[k][i])
    ensures FilteredVia(Content(text), Split(text, '\n'), Kept, idx)
  {
    var lines := Split(text, '\n');
    idx := FilterIsSubsequence(lines, Kept);
    forall k | 0 <= k < |Content(text)|
      ensures '\n' !in Content(text)[k]
      ensures exists i :: 0 <= i < |Content(text)[k]| && !IsWhitespace(Content(text)[k][i])
    {
      assert Content(text)[k] == lines[idx[k]];
      KeptIsTrimTest(Content(text)[k]);
    }
  }

  /** Joining newline-free lines and processing the text filters those lines. */
  lemma ContentOfJoin(lines: seq<string>)
    requires |lines| >= 1
    requires forall k :: 0 <= k < |lines| ==> '\n' !in lines[k]
    ensures Content(Join(lines, '\n')) == Filter(lines, Kept)
  {
    SplitOfJoin(lines, '\n');
  }

  /** A line starting with a visible character passes the filter. */
  lemma VisibleLineKept(line: string)
    requires |line| > 0 && !IsWhitespace(line[0])
    ensures Kept(line)
  {
    KeptIsTrimTest(line);
  }

  /** A whitespace-only line fails the filter. */
  lemma BlankLineDropped(line: string)
    requires AllWhitespace(line)
    ensures !Kept(line)
  {
  }

  /** The sample text of `BlankLinesDropped` splits into five lines. */
  lemma BlankSampleSplit()
    ensures Content("a\n\n  \nb\n\t") == Filter(["a", "", "  ", "b", "\t"], Kept)
  {
    var lines := ["a", "", "  ", "b", "\t"];
    assert Join(lines, '\n') == "a\n\n  \nb\n\t";
    ContentOfJoin(lines);
  }

  /** Filtering one passing line before three failing ones and another passing one. */
  lemma FilterFiveLines(a: string, e: string, sp: string, b: string, t: string)
    requires Kept(a) && !Kept(e) && !Kept(sp) && Kept(b) && !Kept(t)
    ensures Filter([a, e, sp, b, t], Kept) == [a, b]
  {
    var lines := [a, e, sp, b, t];
    assert Filter(lines[4..], Kept) == [];
    assert Filter(lines[3..], Kept) == [b];
    assert Filter(lines[2..], Kept) == [b];
    assert Filter(lines[1..], Kept) == [b];
  }

  /** Blank and whitespace-only lines are dropped and the others kept verbatim in order. */
  lemma BlankLinesDropped()
    ensures Content("a\n\n  \nb\n\t") == ["a", "b"]
  {
    assert Kept("a") && Kept("b") by {
      VisibleLineKept("a");
      VisibleLineKept("b");
    }
    assert !Kept("") && !Kept("  ") && !Kept("\t") by {
      BlankLineDropped("");
      BlankLineDropped("  ");
      BlankLineDropped("\t");
    }
    FilterFiveLines("a", "", "  ", "b", "\t");
    BlankSampleSplit();
  }

  /** The sample text of `CarriageReturnsKept` splits into three lines. */
  lemma CrlfSampleSplit()
    ensures Content("a\r\n\r\nb") == Filter(["a\r", "\r", "b"], Kept)
  {
    var lines := ["a\r", "\r", "b"];
    assert Join(lines, '\n') == "a\r\n\r\nb";
    ContentOfJoin(lines);
  }

  /** CRLF text: the carriage return stays on a non-blank line, and a segment
      that is only a carriage return is dropped. */
  lemma CarriageReturnsKept()
    ensures Content("a\r\n\r\nb") == ["a\r", "b"]
  {
    assert Kept("a\r") && Kept("b") && !Kept("\r") by {
      VisibleLineKept("a\r");
      VisibleLineKept("b");
      BlankLineDropped("\r");
    }
    FilterThreeLines("a\r", "\r", "b");
    CrlfSampleSplit();
  }

  /** Filtering a failing line between two passing ones. */
  lemma FilterThreeLines(a: string, r: string, b: string)
    requires Kept(a) && !Kept(r) && Kept(b)
    ensures Filter([a, r, b], Kept) == [a, b]
  {
    var lines := [a, r, b];
    assert Filter(lines[2..], Kept) == [b];
    assert Filter(lines[1..], Kept) == [b];
  }

  /** Splitting whitespace-only text gives whitespace-only segments. */
  lemma {:induction false} SplitOfWhitespace(s: string, sep: char)
    requires AllWhitespace(s)
    ensures forall k :: 0 <= k < |Split(s, sep)| ==> AllWhitespace(Split(s, sep)[k])
    decreases |s|
  {
    if |s| > 0 {
      SplitOfWhitespace(s[1..], sep);
      var rest := Split(s[1..], sep);
      if s[0] != sep {
        assert AllWhitespace([s[0]] + rest[0]);
      }
    }
  }

  /** Text without visible characters, including "", yields no lines. */
  lemma BlankTextHasNoContent(text: string)
    requires AllWhitespace(text)
    ensures Content(text) == []
  {
    var lines := Split(text, '\n');
    SplitOfWhitespace(text, '\n');
    forall k | 0 <= k < |lines|
      ensures !Kept(lines[k])
    {
      KeptIsTrimTest(lines[k]);
    }
    NoneKept(lines, Kept);
  }
}
