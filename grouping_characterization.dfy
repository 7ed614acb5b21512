/**
 * A description of the lines `algorithm` produces that does not mention
 * its loop: the lines partition the word list in order, every word inside
 * a line passes the same-line test against its predecessor and the line's
 * baseline, and every line after the first opens with a word that fails
 * it against the end of the previous line. For a list whose first word's
 * band does not wrap, the pass produces such a partition and no other
 * partition is one.
 */
module GroupingCharacterization {
  import opened TextEntry
  import opened ImageTextDetector
  import opened GroupingProperties

  /**
   * The y reference word j (j >= 1) of a line is tested against: the first
   * non-zero y of the line before it (not counting the line's opening word,
   * except on the first line), or the word's own y when there is none.
   */
  function LineBase(line: seq<Entry>, firstLine: bool, j: nat): Int32
    requires 1 <= j < |line|
  {
    var b := FirstNonZeroY(line[BaselineOffset(firstLine)..j]);
    if b == 0 then line[j].y else b
  }

  /** Word j of the line passes the same-line test against word j - 1. */
  predicate Continues(line: seq<Entry>, firstLine: bool, j: nat)
    requires 1 <= j < |line|
  {
    SameLineWord(line[j].x, line[j].y, line[j - 1].x, LineBase(line, firstLine, j))
  }

  predicate LineHolds(line: seq<Entry>, firstLine: bool)
  {
    forall j :: 1 <= j < |line| ==> Continues(line, firstLine, j)
  }

  /** Line k opens with a word that fails the test against the end of line k - 1. */
  predicate OpensLine(lines: seq<seq<Entry>>, k: nat)
    requires 1 <= k < |lines|
  {
    && lines[k - 1] != []
    && lines[k] != []
    && !Continues(lines[k - 1] + [lines[k][0]], k == 1, |lines[k - 1]|)
  }

  predicate IsGrouping(es: seq<Entry>, lines: seq<seq<Entry>>)
  {
    && Flatten(lines) == es
    && (forall k :: 0 <= k < |lines| ==> lines[k] != [] && LineHolds(lines[k], k == 0))
    && (forall k :: 1 <= k < |lines| ==> OpensLine(lines, k))
  }

  /** Appending a word does not change the test of the words before it. */
  lemma ContinuesPrefix(line: seq<Entry>, e: Entry, firstLine: bool, j: nat)
    requires 1 <= j < |line|
    ensures Continues(line + [e], firstLine, j) == Continues(line, firstLine, j)
  {
    assert (line + [e])[BaselineOffset(firstLine)..j] == line[BaselineOffset(firstLine)..j];
  }

  /**
   * The loop's test of the next word is the declarative test of that word
   * appended to the current line.
   */
  lemma JoinsIsContinues(x0: Int32, es: seq<Entry>, e: Entry)
    requires |es| > 0
    ensures var s := Scanned(x0, es);
      && Last(s.lines) != []
      && (Joins(s, e) <==> Continues(Last(s.lines) + [e], |s.lines| == 1, |Last(s.lines)|))
  {
    var s := Scanned(x0, es);
    var line := Last(s.lines);
    var off := BaselineOffset(|s.lines| == 1);
    ScannedBaseline(x0, es);
    assert (line + [e])[off..|line|] == line[off..];
  }

  /** A word that passes the test against the last line extends it. */
  lemma GroupingExtendLast(es: seq<Entry>, lines: seq<seq<Entry>>, e: Entry)
    requires IsGrouping(es, lines) && |lines| > 0
    requires Continues(Last(lines) + [e], |lines| == 1, |Last(lines)|)
    ensures IsGrouping(es + [e], AllButLast(lines) + [Last(lines) + [e]])
  {
    var n := |lines| - 1;
    var next := AllButLast(lines) + [Last(lines) + [e]];
    FlattenExtendLast(lines, e);
    forall k | 0 <= k < |next|
      ensures next[k] != [] && LineHolds(next[k], k == 0)
    {
      if k == n {
        var line, first := next[k], k == 0;
        assert LineHolds(lines[n], first);
        forall j | 1 <= j < |line|
          ensures Continues(line, first, j)
        {
          if j < |lines[n]| {
            ContinuesPrefix(lines[n], e, first, j);
          }
        }
      } else {
        assert next[k] == lines[k];
      }
    }
    forall k | 1 <= k < |next|
      ensures OpensLine(next, k)
    {
      assert OpensLine(lines, k);
      assert next[k - 1] == lines[k - 1] && next[k][0] == lines[k][0];
    }
  }

  /** A word that fails the test against the last line opens a new one. */
  lemma GroupingOpenLine(es: seq<Entry>, lines: seq<seq<Entry>>, e: Entry)
    requires IsGrouping(es, lines) && |lines| > 0
    requires !Continues(Last(lines) + [e], |lines| == 1, |Last(lines)|)
    ensures IsGrouping(es + [e], lines + [[e]])
  {
    var next := lines + [[e]];
    FlattenSnoc(lines, [e]);
    forall k | 0 <= k < |next|
      ensures next[k] != [] && LineHolds(next[k], k == 0)
    {
      if k < |lines| {
        assert next[k] == lines[k];
      }
    }
    forall k | 1 <= k < |next|
      ensures OpensLine(next, k)
    {
      if k < |lines| {
        assert OpensLine(lines, k);
      }
    }
  }

  /** The lines of the pass meet the description. */
  lemma {:induction false} LinesAreGrouping(es: seq<Entry>)
    requires |es| > 0 && SafeY(es[0].y)
    ensures IsGrouping(es, Lines(es))
  {
    if |es| == 1 {
      FirstEntryJoins(es);
      assert es[..1] == es;
      assert Flatten([es]) == es by {
        FlattenSnoc([], es);
      }
    } else {
      var front := AllButLast(es);
      var e := Last(es);
      LinesAreGrouping(front);
      JoinsIsContinues(es[0].x, front, e);
      var s := Scanned(es[0].x, front);
      assert es == front + [e];
      if Joins(s, e) {
        GroupingExtendLast(front, s.lines, e);
      } else {
        GroupingOpenLine(front, s.lines, e);
      }
    }
  }

  /**
   * Taking the last word off a grouping leaves a grouping of the shorter
   * list, and the test of that word decides whether it opened its line.
   */
  lemma GroupingDropLast(es: seq<Entry>, lines: seq<seq<Entry>>, e: Entry)
    requires IsGrouping(es + [e], lines)
    ensures |lines| > 0 && Last(lines) != [] && Last(Last(lines)) == e
    ensures |Last(lines)| == 1 ==>
              && IsGrouping(es, AllButLast(lines))
              && (|lines| > 1 ==> !Continues(Last(AllButLast(lines)) + [e], |lines| == 2, |Last(AllButLast(lines))|))
    ensures |Last(lines)| > 1 ==>
              && IsGrouping(es, AllButLast(lines) + [AllButLast(Last(lines))])
              && Continues(Last(lines), |lines| == 1, |Last(lines)| - 1)
  {
    assert lines != [];
    var n := |lines| - 1;
    var front, line := AllButLast(lines), Last(lines);
    assert lines == front + [line];
    assert line == lines[n] != [];
    FlattenSnoc(front, line);
    assert Flatten(front) + line == es + [e];
    assert Last(line) == (es + [e])[|es|];
    if |line| == 1 {
      assert line == [e];
      assert Flatten(front) == (Flatten(front) + line)[..|es|] == (es + [e])[..|es|] == es;
      forall k | 0 <= k < |front|
        ensures front[k] != [] && LineHolds(front[k], k == 0)
      {
        assert front[k] == lines[k];
      }
      forall k | 1 <= k < |front|
        ensures OpensLine(front, k)
      {
        assert OpensLine(lines, k);
      }
      if n > 0 {
        assert OpensLine(lines, n);
        assert lines[n - 1] == Last(front) && lines[n][0] == e;
      }
    } else {
      var head := AllButLast(line);
      var shorter := front + [head];
      assert line == head + [e];
      FlattenSnoc(front, head);
      assert Flatten(shorter) + [e] == es + [e];
      assert Flatten(shorter) == (Flatten(shorter) + [e])[..|es|] == (es + [e])[..|es|] == es;
      assert LineHolds(lines[n], n == 0);
      forall k | 0 <= k < |shorter|
        ensures shorter[k] != [] && LineHolds(shorter[k], k == 0)
      {
        if k == n {
          var first := k == 0;
          forall j | 1 <= j < |head|
            ensures Continues(head, first, j)
          {
            ContinuesPrefix(head, e, first, j);
          }
        } else {
          assert shorter[k] == lines[k];
        }
      }
      forall k | 1 <= k < |shorter|
        ensures OpensLine(shorter, k)
      {
        assert OpensLine(lines, k);
        assert shorter[k - 1] == lines[k - 1] && shorter[k][0] == lines[k][0];
      }
    }
  }

  /** No other partition meets the description. */
  lemma {:induction false} GroupingIsUnique(es: seq<Entry>, lines: seq<seq<Entry>>)
    requires |es| > 0 && SafeY(es[0].y)
    requires IsGrouping(es, lines)
    ensures lines == Lines(es)
  {
    var front, e := AllButLast(es), Last(es);
    assert es == front + [e];
    GroupingDropLast(front, lines, e);
    if |Last(lines)| == 1 {
      var shorter := AllButLast(lines);
      FlattenLength(shorter);
      if front == [] {
        FirstEntryJoins(es);
        assert es[..1] == es;
        assert lines == shorter + [Last(lines)];
      } else {
        assert front[0] == es[0];
        GroupingIsUnique(front, shorter);
        UniqueOpened(es, lines);
      }
    } else {
      var shorter := AllButLast(lines) + [AllButLast(Last(lines))];
      FlattenLength(shorter);
      assert front != [];
      assert front[0] == es[0];
      GroupingIsUnique(front, shorter);
      UniqueExtended(es, lines);
    }
  }

  /** Inductive step of GroupingIsUnique when the last word opened its line. */
  lemma UniqueOpened(es: seq<Entry>, lines: seq<seq<Entry>>)
    requires |es| > 1 && |lines| > 1 && Last(lines) == [Last(es)]
    requires AllButLast(lines) == Lines(AllButLast(es))
    requires !Continues(Last(AllButLast(lines)) + [Last(es)], |lines| == 2, |Last(AllButLast(lines))|)
    ensures lines == Lines(es)
  {
    var front, e := AllButLast(es), Last(es);
    assert front[0] == es[0];
    JoinsIsContinues(es[0].x, front, e);
    assert lines == AllButLast(lines) + [[e]];
  }

  /** Inductive step of GroupingIsUnique when the last word extended the last line. */
  lemma UniqueExtended(es: seq<Entry>, lines: seq<seq<Entry>>)
    requires |es| > 1 && |lines| > 0 && |Last(lines)| > 1 && Last(Last(lines)) == Last(es)
    requires AllButLast(lines) + [AllButLast(Last(lines))] == Lines(AllButLast(es))
    requires Continues(Last(lines), |lines| == 1, |Last(lines)| - 1)
    ensures lines == Lines(es)
  {
    var front, e := AllButLast(es), Last(es);
    var shorter := AllButLast(lines) + [AllButLast(Last(lines))];
    assert front[0] == es[0];
    JoinsIsContinues(es[0].x, front, e);
    assert AllButLast(shorter) == AllButLast(lines);
    assert Last(shorter) + [e] == Last(lines);
    assert lines == AllButLast(lines) + [Last(lines)];
  }

  /**
   * For a list whose first word's band does not wrap, the description
   * picks out exactly the lines of the pass. The second ensures is a
   * corollary of the first and the definition of `Group`: the queries
   * `algorithm` returns are determined by the description.
   */
  lemma GroupingCharacterizesLines(es: seq<Entry>, lines: seq<seq<Entry>>, fmt: string -> string)
    requires |es| > 0 && SafeY(es[0].y)
    ensures IsGrouping(es, lines) <==> lines == Lines(es)
    ensures IsGrouping(es, lines) ==> Group(es, fmt) == Queries(lines, fmt)
  {
    LinesAreGrouping(es);
    if IsGrouping(es, lines) {
      GroupingIsUnique(es, lines);
    }
  }

  /**
   * Inside a line the words never move left, and each word after the
   * first lies in the noise band of the line's baseline.
   */
  lemma LinesAreRuns(es: seq<Entry>)
    requires |es| > 0
    ensures forall k :: 0 <= k < |Lines(es)| ==> IsRun(Lines(es)[k], k == 0)
  {
    var lines: seq<seq<Entry>> := Lines(es);
    ScannedLineHolds(es[0].x, es);
    assert LinesHold(lines);
    forall k | 0 <= k < |lines|
      ensures IsRun(lines[k], k == 0)
    {
      LineHoldsIsRun(lines[k], k == 0);
    }
  }

  /** Every line keeps the same-line test; only the first line has no opener to skip. */
  predicate LinesHold(lines: seq<seq<Entry>>)
  {
    forall k :: 0 <= k < |lines| ==> LineHolds(lines[k], k == 0)
  }

  /**
   * After any prefix, every line of the pass keeps the same-line test
   * between consecutive words; unlike `LinesAreGrouping` this needs no
   * hypothesis on the first word, since the empty first line that a
   * wrapping band leaves behind holds it trivially.
   */
  lemma {:induction false} ScannedLineHolds(x0: Int32, es: seq<Entry>)
    ensures LinesHold(Scanned(x0, es).lines)
  {
    if es != [] {
      var front, e := AllButLast(es), Last(es);
      var s := Scanned(x0, front);
      ScannedLineHolds(x0, front);
      if front == [] {
        assert s.lines == [[]];
        assert forall k :: 0 <= k < |Step(s, e).lines| ==> |Step(s, e).lines[k]| <= 1;
      } else if Joins(s, e) {
        JoinsIsContinues(x0, front, e);
        LinesHoldExtendLast(s.lines, e);
      } else {
        LinesHoldOpenLine(s.lines, e);
      }
    }
  }

  /** A word that passes the test against the last line keeps every line holding. */
  lemma LinesHoldExtendLast(lines: seq<seq<Entry>>, e: Entry)
    requires LinesHold(lines) && |lines| > 0 && Last(lines) != []
    requires Continues(Last(lines) + [e], |lines| == 1, |Last(lines)|)
    ensures LinesHold(AllButLast(lines) + [Last(lines) + [e]])
  {
    var n := |lines| - 1;
    var next := AllButLast(lines) + [Last(lines) + [e]];
    forall k | 0 <= k < |next|
      ensures LineHolds(next[k], k == 0)
    {
      if k == n {
        var line, first := next[k], k == 0;
        assert LineHolds(lines[n], first);
        forall j | 1 <= j < |line|
          ensures Continues(line, first, j)
        {
          if j < |lines[n]| {
            ContinuesPrefix(lines[n], e, first, j);
          }
        }
      } else {
        assert next[k] == lines[k];
      }
    }
  }

  /** A word that opens a new line keeps every line holding. */
  lemma LinesHoldOpenLine(lines: seq<seq<Entry>>, e: Entry)
    requires LinesHold(lines)
    ensures LinesHold(lines + [[e]])
  {
    var next := lines + [[e]];
    forall k | 0 <= k < |next|
      ensures LineHolds(next[k], k == 0)
    {
      if k < |lines| {
        assert next[k] == lines[k];
      } else {
        assert next[k] == [e];
      }
    }
  }

  /** x never decreases along the line, and every word after the first is within the band of its baseline. */
  predicate IsRun(line: seq<Entry>, firstLine: bool)
  {
    forall j :: 1 <= j < |line| ==>
      && line[j - 1].x <= line[j].x
      && LineBase(line, firstLine, j) - NOISE_FACTOR <= line[j].y <= LineBase(line, firstLine, j) + NOISE_FACTOR
  }

  lemma LineHoldsIsRun(line: seq<Entry>, firstLine: bool)
    requires LineHolds(line, firstLine)
    ensures IsRun(line, firstLine)
  {
    forall j | 1 <= j < |line|
      ensures && line[j - 1].x <= line[j].x
              && LineBase(line, firstLine, j) - NOISE_FACTOR <= line[j].y <= LineBase(line, firstLine, j) + NOISE_FACTOR
    {
      assert Continues(line, firstLine, j);
      SameLineWordExact(line[j].x, line[j].y, line[j - 1].x, LineBase(line, firstLine, j));
    }
  }
}
