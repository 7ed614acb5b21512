/**
 * Two inputs worked through the grouper as the code stands: the whole
 * detected list, including the collaborator's leading summary entry
 * ("Will be ignored" at (10, 13)), is grouped.
 */
module WorkedExamples {
  import opened TextEntry
  import opened ImageTextDetector
  import opened GroupingProperties

  const SUMMARY: Entry := Entry("Will be ignored", 10, 13)

  /** The summary entry, then "Canon Camera" at y = 71 and "Pink shoes" at y = 86. */
  const TWO_LINES: seq<Entry> :=
    [SUMMARY, Entry("Canon", 63, 71), Entry("Camera", 63, 71), Entry("Pink", 78, 86), Entry("shoes", 78, 86)]

  /** The summary entry, then "Blue Shoes For Boys" with "For" left of "Shoes". */
  const LEFTWARD: seq<Entry> :=
    [SUMMARY, Entry("Blue", 10, 13), Entry("Shoes", 11, 14), Entry("For", 9, 12), Entry("Boys", 10, 13)]

  predicate HasCoordinates(es: seq<Entry>, xs: seq<int>, ys: seq<int>)
  {
    && |es| == |xs| == |ys|
    && forall i :: 0 <= i < |es| ==> es[i].x == xs[i] && es[i].y == ys[i]
  }

  lemma JoinsAt(x0: Int32, es: seq<Entry>, i: nat, s: Scan)
    requires i < |es| && Scanned(x0, es[..i]) == s && Joins(s, es[i])
    ensures Scanned(x0, es[..i + 1]) == Scan(es[i].x, Baseline(s, es[i]), AllButLast(s.lines) + [Last(s.lines) + [es[i]]])
  {
    ScannedSnoc(x0, es, i);
  }

  lemma BreaksAt(x0: Int32, es: seq<Entry>, i: nat, s: Scan)
    requires i < |es| && Scanned(x0, es[..i]) == s && !Joins(s, es[i])
    ensures Scanned(x0, es[..i + 1]) == Scan(es[i].x, 0, s.lines + [[es[i]]])
  {
    ScannedSnoc(x0, es, i);
  }

  lemma FirstWordOpens(es: seq<Entry>)
    requires |es| > 0 && SafeY(es[0].y) && es[0].y != 0
    ensures Scanned(es[0].x, es[..1]) == Scan(es[0].x, es[0].y, [[es[0]]])
  {
    assert es[..0] == [];
    JoinsAt(es[0].x, es, 0, Scan(es[0].x, 0, [[]]));
    assert AllButLast<seq<Entry>>([[]]) == [] && [] + [es[0]] == [es[0]];
    assert [] + [[es[0]]] == [[es[0]]];
  }

  lemma TwoLinesFirstBreak(es: seq<Entry>)
    requires HasCoordinates(es, [10, 63, 63, 78, 78], [13, 71, 71, 86, 86])
    ensures Scanned(10, es[..2]) == Scan(63, 0, [[es[0]], [es[1]]])
  {
    FirstWordOpens(es);
    var s := Scan(10, 13, [[es[0]]]);
    SameLineWordExact(es[1].x, es[1].y, s.xRef, Baseline(s, es[1]));
    BreaksAt(10, es, 1, s);
    assert [[es[0]]] + [[es[1]]] == [[es[0]], [es[1]]];
  }

  lemma TwoLinesPrefix(es: seq<Entry>)
    requires HasCoordinates(es, [10, 63, 63, 78, 78], [13, 71, 71, 86, 86])
    ensures Scanned(10, es[..3]) == Scan(63, 71, [[es[0]], [es[1], es[2]]])
  {
    TwoLinesFirstBreak(es);
    var s := Scan(63, 0, [[es[0]], [es[1]]]);
    SameLineWordExact(es[2].x, es[2].y, s.xRef, Baseline(s, es[2]));
    JoinsAt(10, es, 2, s);
    assert AllButLast([[es[0]], [es[1]]]) == [[es[0]]] && [es[1]] + [es[2]] == [es[1], es[2]];
    assert [[es[0]]] + [[es[1], es[2]]] == [[es[0]], [es[1], es[2]]];
  }

  lemma TwoLinesSecondBreak(es: seq<Entry>)
    requires HasCoordinates(es, [10, 63, 63, 78, 78], [13, 71, 71, 86, 86])
    ensures Scanned(10, es[..4]) == Scan(78, 0, [[es[0]], [es[1], es[2]], [es[3]]])
  {
    TwoLinesPrefix(es);
    var s := Scan(63, 71, [[es[0]], [es[1], es[2]]]);
    SameLineWordExact(es[3].x, es[3].y, s.xRef, Baseline(s, es[3]));
    BreaksAt(10, es, 3, s);
    assert s.lines + [[es[3]]] == [[es[0]], [es[1], es[2]], [es[3]]];
  }

  lemma TwoLinesGrouping(es: seq<Entry>)
    requires HasCoordinates(es, [10, 63, 63, 78, 78], [13, 71, 71, 86, 86])
    ensures Lines(es) == [[es[0]], [es[1], es[2]], [es[3], es[4]]]
  {
    TwoLinesSecondBreak(es);
    var l0, l1 := [es[0]], [es[1], es[2]];
    var s := Scan(78, 0, [l0, l1, [es[3]]]);
    SameLineWordExact(es[4].x, es[4].y, s.xRef, Baseline(s, es[4]));
    JoinsAt(10, es, 4, s);
    assert AllButLast(s.lines) == [l0, l1] && [es[3]] + [es[4]] == [es[3], es[4]];
    assert [l0, l1] + [[es[3], es[4]]] == [l0, l1, [es[3], es[4]]];
    assert es[..5] == es;
  }

  /**
   * "Canon Camera" and "Pink shoes" are two lines, and the summary entry
   * forms a query of its own before them.
   */
  lemma TwoLinesWithSummaryEntry(fmt: string -> string)
    ensures Group(TWO_LINES, fmt) == [fmt("Will be ignored "), fmt("Canon Camera "), fmt("Pink shoes ")]
  {
    var es := TWO_LINES;
    assert HasCoordinates(es, [10, 63, 63, 78, 78], [13, 71, 71, 86, 86]);
    TwoLinesGrouping(es);
    SentenceOfOne(es[0]);
    SentenceOfTwo(es[1], es[2]);
    SentenceOfTwo(es[3], es[4]);
    QueriesOfThree([es[0]], [es[1], es[2]], [es[3], es[4]], fmt);
    assert "Will be ignored" + " " == "Will be ignored ";
    assert "Canon" + " " + "Camera" + " " == "Canon Camera ";
    assert "Pink" + " " + "shoes" + " " == "Pink shoes ";
  }

  lemma LeftwardFirstPair(es: seq<Entry>)
    requires HasCoordinates(es, [10, 10, 11, 9, 10], [13, 13, 14, 12, 13])
    ensures Scanned(10, es[..2]) == Scan(10, 13, [[es[0], es[1]]])
  {
    FirstWordOpens(es);
    var s := Scan(10, 13, [[es[0]]]);
    SameLineWordExact(es[1].x, es[1].y, s.xRef, Baseline(s, es[1]));
    JoinsAt(10, es, 1, s);
    assert AllButLast([[es[0]]]) == [] && [es[0]] + [es[1]] == [es[0], es[1]];
    assert [] + [[es[0], es[1]]] == [[es[0], es[1]]];
  }

  lemma LeftwardPrefix(es: seq<Entry>)
    requires HasCoordinates(es, [10, 10, 11, 9, 10], [13, 13, 14, 12, 13])
    ensures Scanned(10, es[..3]) == Scan(11, 13, [[es[0], es[1], es[2]]])
  {
    LeftwardFirstPair(es);
    var s := Scan(10, 13, [[es[0], es[1]]]);
    SameLineWordExact(es[2].x, es[2].y, s.xRef, Baseline(s, es[2]));
    JoinsAt(10, es, 2, s);
    assert AllButLast([[es[0], es[1]]]) == [] && [es[0], es[1]] + [es[2]] == [es[0], es[1], es[2]];
    assert [] + [[es[0], es[1], es[2]]] == [[es[0], es[1], es[2]]];
  }

  lemma LeftwardBreak(es: seq<Entry>)
    requires HasCoordinates(es, [10, 10, 11, 9, 10], [13, 13, 14, 12, 13])
    ensures Scanned(10, es[..4]) == Scan(9, 0, [[es[0], es[1], es[2]], [es[3]]])
  {
    LeftwardPrefix(es);
    var s := Scan(11, 13, [[es[0], es[1], es[2]]]);
    SameLineWordExact(es[3].x, es[3].y, s.xRef, Baseline(s, es[3]));
    BreaksAt(10, es, 3, s);
    assert s.lines + [[es[3]]] == [[es[0], es[1], es[2]], [es[3]]];
  }

  lemma LeftwardGrouping(es: seq<Entry>)
    requires HasCoordinates(es, [10, 10, 11, 9, 10], [13, 13, 14, 12, 13])
    ensures Lines(es) == [[es[0], es[1], es[2]], [es[3], es[4]]]
  {
    LeftwardBreak(es);
    var l0 := [es[0], es[1], es[2]];
    var s := Scan(9, 0, [l0, [es[3]]]);
    SameLineWordExact(es[4].x, es[4].y, s.xRef, Baseline(s, es[4]));
    JoinsAt(10, es, 4, s);
    assert AllButLast(s.lines) == [l0] && [es[3]] + [es[4]] == [es[3], es[4]];
    assert [l0] + [[es[3], es[4]]] == [l0, [es[3], es[4]]];
    assert es[..5] == es;
  }

  /**
   * "For" lies left of "Shoes", so the x test breaks the line there; "Boys"
   * joins "For" because after a break the baseline is taken from the word
   * being tested.
   */
  lemma LeftwardWordBreaksLine(fmt: string -> string)
    ensures Group(LEFTWARD, fmt) == [fmt("Will be ignored Blue Shoes "), fmt("For Boys ")]
  {
    var es := LEFTWARD;
    assert HasCoordinates(es, [10, 10, 11, 9, 10], [13, 13, 14, 12, 13]);
    LeftwardGrouping(es);
    var l0, l1 := [es[0], es[1], es[2]], [es[3], es[4]];
    assert AllButLast(l0) == [es[0], es[1]];
    SentenceOfTwo(es[0], es[1]);
    SentenceOfTwo(es[3], es[4]);
    QueriesOfTwo(l0, l1, fmt);
    assert Sentence(l0) == "Will be ignored" + " " + "Blue" + " " + "Shoes" + " ";
    assert "Will be ignored" + " " + "Blue" + " " + "Shoes" + " " == "Will be ignored Blue Shoes ";
    assert "For" + " " + "Boys" + " " == "For Boys ";
  }

  lemma SentenceOfOne(a: Entry)
    ensures Sentence([a]) == a.text + " "
  {
    assert AllButLast([a]) == [];
  }

  lemma SentenceOfTwo(a: Entry, b: Entry)
    ensures Sentence([a, b]) == a.text + " " + b.text + " "
  {
    assert AllButLast([a, b]) == [a];
    SentenceOfOne(a);
  }

  lemma {:induction false} QueriesOfTwo(a: seq<Entry>, b: seq<Entry>, fmt: string -> string)
    ensures Queries([a, b], fmt) == [fmt(Sentence(a)), fmt(Sentence(b))]
  {
    assert AllButLast([a]) == [];
    assert Queries([a], fmt) == [fmt(Sentence(a))];
    assert AllButLast([a, b]) == [a];
  }

  lemma {:induction false} QueriesOfThree(a: seq<Entry>, b: seq<Entry>, c: seq<Entry>, fmt: string -> string)
    ensures Queries([a, b, c], fmt) == [fmt(Sentence(a)), fmt(Sentence(b)), fmt(Sentence(c))]
  {
    QueriesOfTwo(a, b, fmt);
    assert AllButLast([a, b, c]) == [a, b];
  }
}
