/**
 * What the line grouper of `ImageTextDectector.algorithm` guarantees:
 * the same-line test in plain arithmetic, where the x and y references
 * come from, where each word goes and how many queries come out. The
 * declarative description of the lines (`IsGrouping`) and its uniqueness
 * proof are in `GroupingCharacterization`.
 */
module GroupingProperties {
  import opened TextEntry
  import opened ImageTextDetector

  /** A y reference whose noise band `yRef - 5 .. yRef + 5` does not wrap around in Java `int`. */
  predicate SafeY(y: int)
  {
    INT_MIN + NOISE_FACTOR <= y <= INT_MAX - NOISE_FACTOR
  }

  // ---------------------------------------------------------------------
  // The same-line predicate

  /**
   * `checkForSameLineWord` is the inclusive band test on y together with
   * "x does not decrease"; when the reference y is less than 5 from the `int`
   * limits, one end of the band wraps around and no word is on the line.
   */
  lemma SameLineWordExact(x: Int32, y: Int32, xRef: Int32, yRef: Int32)
    ensures SameLineWord(x, y, xRef, yRef) <==>
              (SafeY(yRef) && x >= xRef && yRef - NOISE_FACTOR <= y && y <= yRef + NOISE_FACTOR)
  {
  }

  // ---------------------------------------------------------------------
  // The references the loop keeps

  /** The first word is tested against its own coordinates, so it opens the first line unless its band wraps. */
  lemma FirstEntryJoins(es: seq<Entry>)
    requires |es| > 0
    ensures Joins(Scanned(es[0].x, []), es[0]) <==> SafeY(es[0].y)
    ensures SafeY(es[0].y) ==> Scanned(es[0].x, es[..1]).lines == [[es[0]]]
  {
    SameLineWordExact(es[0].x, es[0].y, es[0].x, es[0].y);
    assert AllButLast(es[..1]) == [];
    assert AllButLast<seq<Entry>>([[]]) == [];
    assert [] + [es[0]] == [es[0]];
  }

  /**
   * The x test always compares with the immediately preceding word, on
   * both branches, so a word left of its predecessor opens a new line.
   */
  lemma XDecreaseBreaks(es: seq<Entry>, i: nat)
    requires 1 <= i < |es| && es[i].x < es[i - 1].x
    ensures Scanned(es[0].x, es[..i]).xRef == es[i - 1].x
    ensures !Joins(Scanned(es[0].x, es[..i]), es[i])
    ensures Scanned(es[0].x, es[..i + 1]).lines == Scanned(es[0].x, es[..i]).lines + [[es[i]]]
  {
    assert AllButLast(es[..i + 1]) == es[..i];
  }

  /**
   * After a break `yAxisRef` is 0, so the next word is tested against its
   * own y: it joins the line the previous word opened exactly when its x
   * is not smaller and its own band does not wrap.
   */
  lemma AfterBreak(es: seq<Entry>, i: nat)
    requires 1 <= i < |es|
    requires !Joins(Scanned(es[0].x, es[..i - 1]), es[i - 1])
    ensures Scanned(es[0].x, es[..i]).yRef == 0
    ensures Joins(Scanned(es[0].x, es[..i]), es[i]) <==> es[i].x >= es[i - 1].x && SafeY(es[i].y)
  {
    assert AllButLast(es[..i]) == es[..i - 1];
    var s := Scanned(es[0].x, es[..i]);
    SameLineWordExact(es[i].x, es[i].y, s.xRef, Baseline(s, es[i]));
  }

  /** The first non-zero y among the words of a line, 0 when there is none. */
  function FirstNonZeroY(line: seq<Entry>): (r: Int32)
    ensures r != 0 ==> exists k :: 0 <= k < |line| && line[k].y == r
  {
    if line == [] then 0 else if line[0].y != 0 then line[0].y else FirstNonZeroY(line[1..])
  }

  lemma {:induction false} FirstNonZeroYAppend(line: seq<Entry>, e: Entry)
    ensures FirstNonZeroY(line + [e]) == if FirstNonZeroY(line) != 0 then FirstNonZeroY(line) else e.y
  {
    if line != [] {
      assert (line + [e])[1..] == line[1..] + [e];
      FirstNonZeroYAppend(line[1..], e);
    }
  }

  /**
   * The first word of the whole list counts towards the first line's
   * baseline; the word that opens any later line does not, since the
   * reference y is reset after it.
   */
  function BaselineOffset(firstLine: bool): nat
  {
    if firstLine then 0 else 1
  }

  /**
   * The stored `yAxisRef` is the first non-zero y of the current line,
   * not counting the word that opened it (unless it is the first line):
   * the 0 sentinel lets a word with y = 0 leave the baseline unset.
   */
  lemma {:induction false} ScannedBaseline(x0: Int32, es: seq<Entry>)
    ensures var s := Scanned(x0, es);
      && BaselineOffset(|s.lines| == 1) <= |Last(s.lines)|
      && s.yRef == FirstNonZeroY(Last(s.lines)[BaselineOffset(|s.lines| == 1)..])
  {
    if es != [] {
      var prev := Scanned(x0, AllButLast(es));
      var e := Last(es);
      ScannedBaseline(x0, AllButLast(es));
      var off := BaselineOffset(|prev.lines| == 1);
      if Joins(prev, e) {
        assert (Last(prev.lines) + [e])[off..] == Last(prev.lines)[off..] + [e];
        FirstNonZeroYAppend(Last(prev.lines)[off..], e);
      }
    }
  }

  // ---------------------------------------------------------------------
  // Where the words go

  /** The words of the lines, line after line. */
  function Flatten(lines: seq<seq<Entry>>): seq<Entry>
  {
    if lines == [] then [] else Flatten(AllButLast(lines)) + Last(lines)
  }

  lemma {:induction false} FlattenLength(lines: seq<seq<Entry>>)
    requires forall k :: 0 <= k < |lines| ==> lines[k] != []
    ensures |Flatten(lines)| >= |lines|
  {
    if lines != [] {
      FlattenLength(AllButLast(lines));
    }
  }

  lemma {:induction false} FlattenSnoc(lines: seq<seq<Entry>>, line: seq<Entry>)
    ensures Flatten(lines + [line]) == Flatten(lines) + line
  {
    assert AllButLast(lines + [line]) == lines;
  }

  lemma {:induction false} FlattenExtendLast(lines: seq<seq<Entry>>, e: Entry)
    requires |lines| > 0
    ensures Flatten(AllButLast(lines) + [Last(lines) + [e]]) == Flatten(lines) + [e]
  {
    FlattenSnoc(AllButLast(lines), Last(lines) + [e]);
    assert lines == AllButLast(lines) + [Last(lines)];
  }

  /** Every word lands in exactly one line, in input order. */
  lemma {:induction false} ScannedFlatten(x0: Int32, es: seq<Entry>)
    ensures Flatten(Scanned(x0, es).lines) == es
  {
    if es != [] {
      var prev := Scanned(x0, AllButLast(es));
      ScannedFlatten(x0, AllButLast(es));
      assert es == AllButLast(es) + [Last(es)];
      if Joins(prev, Last(es)) {
        FlattenExtendLast(prev.lines, Last(es));
      } else {
        FlattenSnoc(prev.lines, [Last(es)]);
      }
    }
  }

  /** Only the first line can be empty: every later line is opened by the word that broke the previous one. */
  lemma {:induction false} ScannedLaterLinesNonEmpty(x0: Int32, es: seq<Entry>)
    ensures forall k :: 1 <= k < |Scanned(x0, es).lines| ==> Scanned(x0, es).lines[k] != []
  {
    if es != [] {
      ScannedLaterLinesNonEmpty(x0, AllButLast(es));
    }
  }

  /** The unformatted sentences, one after the other. */
  function JoinedSentences(lines: seq<seq<Entry>>): string
  {
    if lines == [] then "" else JoinedSentences(AllButLast(lines)) + Sentence(Last(lines))
  }

  lemma {:induction false} SentenceAppend(a: seq<Entry>, b: seq<Entry>)
    ensures Sentence(a + b) == Sentence(a) + Sentence(b)
  {
    if b != [] {
      assert AllButLast(a + b) == a + AllButLast(b);
      SentenceAppend(a, AllButLast(b));
    } else {
      assert a + b == a;
    }
  }

  lemma {:induction false} JoinedSentencesFlatten(lines: seq<seq<Entry>>)
    ensures JoinedSentences(lines) == Sentence(Flatten(lines))
  {
    if lines != [] {
      JoinedSentencesFlatten(AllButLast(lines));
      SentenceAppend(Flatten(AllButLast(lines)), Last(lines));
    }
  }

  /**
   * Concatenating the sentences before formatting gives every word's
   * text followed by one space, in input order.
   */
  lemma SentencesCoverInput(es: seq<Entry>)
    requires |es| > 0
    ensures Flatten(Lines(es)) == es
    ensures JoinedSentences(Lines(es)) == Sentence(es)
  {
    ScannedFlatten(es[0].x, es);
    JoinedSentencesFlatten(Lines(es));
  }

  lemma {:induction false} QueriesAt(lines: seq<seq<Entry>>, fmt: string -> string, k: nat)
    requires k < |lines|
    ensures Queries(lines, fmt)[k] == fmt(Sentence(lines[k]))
  {
    if k < |lines| - 1 {
      QueriesAt(AllButLast(lines), fmt, k);
    }
  }

  /** Each query is the formatter applied to one line's sentence, line by line. */
  lemma GroupIsFormattedSentences(es: seq<Entry>, fmt: string -> string)
    requires |es| > 0
    ensures |Group(es, fmt)| == |Lines(es)|
    ensures forall k :: 0 <= k < |Lines(es)| ==> Group(es, fmt)[k] == fmt(Sentence(Lines(es)[k]))
  {
    forall k | 0 <= k < |Lines(es)|
      ensures Group(es, fmt)[k] == fmt(Sentence(Lines(es)[k]))
    {
      QueriesAt(Lines(es), fmt, k);
    }
  }

  // ---------------------------------------------------------------------
  // How many queries

  /** The number of words at which the same-line test failed. */
  function BreakCount(x0: Int32, es: seq<Entry>): nat
  {
    if es == [] then 0
    else BreakCount(x0, AllButLast(es)) + (if Joins(Scanned(x0, AllButLast(es)), Last(es)) then 0 else 1)
  }

  /** One query per break, plus the one emitted after the loop. */
  lemma {:induction false} LineCountIsBreaksPlusOne(x0: Int32, es: seq<Entry>)
    ensures |Scanned(x0, es).lines| == 1 + BreakCount(x0, es)
  {
    if es != [] {
      LineCountIsBreaksPlusOne(x0, AllButLast(es));
    }
  }

  /**
   * For a non-empty list whose first word's band does not wrap, there is
   * at least one query and at most one per word, and no line is empty.
   */
  lemma LineCountBounds(es: seq<Entry>, fmt: string -> string)
    requires |es| > 0 && SafeY(es[0].y)
    ensures 1 <= |Group(es, fmt)| <= |es|
    ensures forall k :: 0 <= k < |Lines(es)| ==> Lines(es)[k] != []
  {
    var lines := Lines(es);
    ScannedFlatten(es[0].x, es);
    ScannedLaterLinesNonEmpty(es[0].x, es);
    LinesStartWithFirst(es);
    FlattenLength(lines);
  }

  /** With a safe first word, the first line starts with the first word. */
  lemma {:induction false} LinesStartWithFirst(es: seq<Entry>)
    requires |es| > 0 && SafeY(es[0].y)
    ensures Lines(es)[0] != [] && Lines(es)[0][0] == es[0]
  {
    PrefixLinesStartWithFirst(es, |es|);
    assert es[..|es|] == es;
  }

  lemma {:induction false} PrefixLinesStartWithFirst(es: seq<Entry>, n: nat)
    requires 1 <= n <= |es| && SafeY(es[0].y)
    ensures var lines := Scanned(es[0].x, es[..n]).lines;
      lines[0] != [] && lines[0][0] == es[0]
  {
    if n == 1 {
      FirstEntryJoins(es);
    } else {
      PrefixLinesStartWithFirst(es, n - 1);
      assert AllButLast(es[..n]) == es[..n - 1];
      var prev := Scanned(es[0].x, es[..n - 1]);
      if Joins(prev, es[n - 1]) && |prev.lines| == 1 {
        assert Scanned(es[0].x, es[..n]).lines[0] == prev.lines[0] + [es[n - 1]];
      }
    }
  }

  /**
   * Without that condition the bound fails: a single word whose y is
   * `Integer.MAX_VALUE` breaks against its own band, so `algorithm`
   * emits the formatted empty sentence before the word's own query.
   */
  lemma FirstEntryOverflow(text: string, x: Int32, fmt: string -> string)
    ensures Lines([Entry(text, x, INT_MAX)]) == [[], [Entry(text, x, INT_MAX)]]
    ensures Group([Entry(text, x, INT_MAX)], fmt) == [fmt(""), fmt(text + " ")]
  {
    var e := Entry(text, x, INT_MAX);
    assert AllButLast([e]) == [];
    assert Scanned(x, []) == Scan(x, 0, [[]]);
    assert !Joins(Scan(x, 0, [[]]), e);
    assert Scanned(x, [e]) == Step(Scan(x, 0, [[]]), e);
    assert Lines([e]) == [[], [e]];
    assert Sentence([e]) == text + " ";
    assert AllButLast([[], [e]]) == [[]];
    assert AllButLast<seq<Entry>>([[]]) == [];
    assert Queries([[]], fmt) == [fmt("")];
    assert Queries([[], [e]], fmt) == Queries([[]], fmt) + [fmt(Sentence([e]))];
  }
}
