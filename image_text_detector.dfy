/**
 * The shopping-list line grouper of `ImageTextDectector`: word entries
 * from the OCR collaborator are cut, in one left-to-right pass, into
 * sentences by a geometric same-line test, and each sentence is handed
 * to the query formatter.
 *
 * The formatter (`PhotoShoppingUtil.formatQuery`) and the detection call
 * (`TextDetectionAPI.detect`) are collaborators whose code is not part of
 * this model; both are parameters.
 */
module ImageTextDetector {
  import opened TextEntry

  /** Tolerance, in coordinate units, of the y band around a line's baseline. */
  const NOISE_FACTOR: int := 5

  const EMPTY_TEXT_MESSAGE: string := "Shopping List doesn't contain any text"

  /** The exceptions that reach the caller of `extractShoppingList`. */
  datatype Exception =
    | PhotoDetectionException(message: string)
    | IOException(message: string)

  datatype Result<T> = Success(value: T) | Failure(error: Exception)

  /**
   * `checkForSameLineWord`: the current word continues the line when it
   * does not move left of the reference x and its y lies in the band of
   * half-width NOISE_FACTOR around the reference y, the band's ends being
   * computed in Java `int` arithmetic.
   */
  predicate SameLineWord(x: Int32, y: Int32, xRef: Int32, yRef: Int32)
  {
    && x >= xRef
    && Wrap32(yRef - NOISE_FACTOR) <= y
    && y <= Wrap32(yRef + NOISE_FACTOR)
  }

  function Last<T>(s: seq<T>): T
    requires |s| > 0
  {
    s[|s| - 1]
  }

  function AllButLast<T>(s: seq<T>): seq<T>
    requires |s| > 0
  {
    s[..|s| - 1]
  }

  /**
   * The words of a line, each followed by one space, as `algorithm`
   * accumulates them in `sentence`.
   */
  function Sentence(line: seq<Entry>): (r: string)
    ensures |r| >= |line|
  {
    if line == [] then "" else Sentence(AllButLast(line)) + Last(line).text + " "
  }

  /** The formatted query of each line, in order. */
  function Queries(lines: seq<seq<Entry>>, fmt: string -> string): (r: seq<string>)
    ensures |r| == |lines|
  {
    if lines == [] then [] else Queries(AllButLast(lines), fmt) + [fmt(Sentence(Last(lines)))]
  }

  /**
   * The state of `algorithm` between two words: `xAxisRef`, `yAxisRef`
   * (0 meaning "unset"), and the lines seen so far. The last line is the
   * one still being accumulated in `sentence`; the others have already
   * been formatted into `shoppingQueries`.
   */
  datatype Scan = Scan(xRef: Int32, yRef: Int32, lines: seq<seq<Entry>>)

  /** The reference y a word is tested against: an unset `yAxisRef` is first fixed from the word itself. */
  function Baseline(s: Scan, e: Entry): Int32
  {
    if s.yRef == 0 then e.y else s.yRef
  }

  /** The word continues the current line. */
  predicate Joins(s: Scan, e: Entry)
  {
    SameLineWord(e.x, e.y, s.xRef, Baseline(s, e))
  }

  /** One iteration of the loop of `algorithm`. */
  function Step(s: Scan, e: Entry): (r: Scan)
    requires |s.lines| > 0
    ensures |r.lines| > 0 && Last(r.lines) != [] && Last(Last(r.lines)) == e
    ensures r.xRef == e.x
    ensures Joins(s, e) ==> r.lines == AllButLast(s.lines) + [Last(s.lines) + [e]]
    ensures !Joins(s, e) ==> r.lines == s.lines + [[e]] && r.yRef == 0
  {
    if Joins(s, e) then
      Scan(e.x, Baseline(s, e), AllButLast(s.lines) + [Last(s.lines) + [e]])
    else
      Scan(e.x, 0, s.lines + [[e]])
  }

  /**
   * The state after the loop has processed `es`, starting from
   * `xAxisRef` = x0, `yAxisRef` = 0 and an empty sentence.
   */
  function Scanned(x0: Int32, es: seq<Entry>): (r: Scan)
    ensures |r.lines| > 0
    ensures es != [] ==> r.xRef == Last(es).x
  {
    if es == [] then Scan(x0, 0, [[]]) else Step(Scanned(x0, AllButLast(es)), Last(es))
  }

  /** The lines `algorithm` cuts a non-empty entry list into; xAxisRef starts at the first word's x. */
  function Lines(es: seq<Entry>): seq<seq<Entry>>
    requires |es| > 0
  {
    Scanned(es[0].x, es).lines
  }

  /** What `algorithm` returns: one formatted query per line. */
  function Group(es: seq<Entry>, fmt: string -> string): seq<string>
    requires |es| > 0
  {
    Queries(Lines(es), fmt)
  }

  /**
   * `algorithm`: a single pass over the entries that keeps the previous
   * word's x, the line's y baseline and the sentence being built, and
   * emits a formatted query at each line break and once after the loop.
   */
  method Algorithm(entries: seq<Entry>, fmt: string -> string) returns (shoppingQueries: seq<string>)
    requires |entries| > 0
    ensures shoppingQueries == Group(entries, fmt)
    ensures |shoppingQueries| >= 1
  {
    var xAxisRef: Int32 := entries[0].x;
    var yAxisRef: Int32 := 0;
    var sentence: string := "";
    shoppingQueries := [];
    ghost var scan := Scanned(entries[0].x, []);
    for i := 0 to |entries|
      invariant scan == Scanned(entries[0].x, entries[..i])
      invariant scan.xRef == xAxisRef && scan.yRef == yAxisRef
      invariant sentence == Sentence(Last(scan.lines))
      invariant shoppingQueries == Queries(AllButLast(scan.lines), fmt)
    {
      var singleWord := entries[i];
      if yAxisRef == 0 {
        yAxisRef := singleWord.y;
      }
      var xAxisCurrent := singleWord.x;
      var yAxisCurrent := singleWord.y;
      if SameLineWord(xAxisCurrent, yAxisCurrent, xAxisRef, yAxisRef) {
        sentence := sentence + singleWord.text + " ";
        JoinedLine(scan.lines, singleWord);
      } else {
        sentence := fmt(sentence);
        shoppingQueries := shoppingQueries + [sentence];
        yAxisRef := 0;
        sentence := singleWord.text + " ";
        OpenedLine(scan.lines, singleWord);
      }
      xAxisRef := xAxisCurrent;
      ScannedSnoc(entries[0].x, entries, i);
      scan := Step(scan, singleWord);
    }
    assert entries[..|entries|] == entries;
    sentence := fmt(sentence);
    shoppingQueries := shoppingQueries + [sentence];
  }

  lemma ScannedSnoc(x0: Int32, es: seq<Entry>, i: nat)
    requires i < |es|
    ensures Scanned(x0, es[..i + 1]) == Step(Scanned(x0, es[..i]), es[i])
  {
    assert AllButLast(es[..i + 1]) == es[..i];
  }

  lemma JoinedLine(lines: seq<seq<Entry>>, e: Entry)
    requires |lines| > 0
    ensures var next := AllButLast(lines) + [Last(lines) + [e]];
      && AllButLast(next) == AllButLast(lines)
      && Sentence(Last(next)) == Sentence(Last(lines)) + e.text + " "
  {
    assert AllButLast(Last(lines) + [e]) == Last(lines);
  }

  lemma OpenedLine(lines: seq<seq<Entry>>, e: Entry)
    requires |lines| > 0
    ensures AllButLast(lines + [[e]]) == lines
    ensures Sentence([e]) == e.text + " "
  {
    assert AllButLast([e]) == [];
  }

  /**
   * `createShoppingListQuery`: an empty entry list is refused with a
   * PhotoDetectionException; any other list is grouped as it is.
   */
  method CreateShoppingListQuery(shoppingListText: seq<Entry>, fmt: string -> string)
    returns (r: Result<seq<string>>)
    ensures shoppingListText == [] ==> r == Failure(PhotoDetectionException(EMPTY_TEXT_MESSAGE))
    ensures shoppingListText != [] ==> r == Success(Group(shoppingListText, fmt))
  {
    if shoppingListText == [] {
      return Failure(PhotoDetectionException(EMPTY_TEXT_MESSAGE));
    }
    var shoppingQueries := Algorithm(shoppingListText, fmt);
    return Success(shoppingQueries);
  }

  /**
   * `extractShoppingList`: asks the detection collaborator for the words
   * of the image and groups the whole list it returns. A failure of the
   * detection call reaches the caller unchanged and nothing is grouped.
   */
  method ExtractShoppingList(detect: seq<bv8> -> Result<seq<Entry>>, shoppingImageBytes: seq<bv8>,
                             fmt: string -> string)
    returns (r: Result<seq<string>>)
    ensures detect(shoppingImageBytes).Failure? ==> r == Failure(detect(shoppingImageBytes).error)
    ensures detect(shoppingImageBytes) == Success([]) ==>
              r == Failure(PhotoDetectionException(EMPTY_TEXT_MESSAGE))
    ensures detect(shoppingImageBytes).Success? && detect(shoppingImageBytes).value != [] ==>
              r == Success(Group(detect(shoppingImageBytes).value, fmt))
  {
    var detected := detect(shoppingImageBytes);
    if detected.Failure? {
      return Failure(detected.error);
    }
    r := CreateShoppingListQuery(detected.value, fmt);
  }
}
