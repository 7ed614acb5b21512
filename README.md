# Shopping-list line grouper

A Dafny model of the core of `ImageTextDectector`, the component that turns the
words an OCR service found in a photo of a shopping list into one search query per
list item. The detection service returns word entries, each a text with the lower-left
corner (x, y) of its bounding box. `algorithm` walks the entries once, left to
right. It cuts them into sentences with a geometric same-line test
(`checkForSameLineWord`) and hands each sentence to the query formatter
(`PhotoShoppingUtil.formatQuery`). `createShoppingListQuery` refuses an empty
entry list, and `extractShoppingList` chains the detection call and the grouping.

Files:

- `entry.dfy` (module `TextEntry`): the word entry `Entry(text, x, y)` and Java `int`
  arithmetic (`Int32`, `Wrap32`).
- `image_text_detector.dfy` (module `ImageTextDetector`): the same-line predicate
  `SameLineWord`.
  The loop state `Scan` (`xAxisRef`, `yAxisRef`, lines seen so far) and its step
  function `Step`. The recursive specification `Scanned`/`Lines`/`Group`. The
  imperative `Algorithm` method, proved equal to `Group` by its loop invariant.
  `CreateShoppingListQuery` and `ExtractShoppingList`.
- `grouping_properties.dfy` (module `GroupingProperties`): the same-line test in plain
  arithmetic. Where the x and y references come from. Where each word goes. How many
  queries come out.
- `grouping_characterization.dfy` (module `GroupingCharacterization`): `IsGrouping`, a
  description of the lines that does not mention the loop. The lines partition the
  input in order. Every word inside a line passes the test against its predecessor
  and the line's baseline. Every later line opens with a word that fails it. The
  loop's lines are proved to meet this description and to be its only solution.
- `worked_examples.dfy` (module `WorkedExamples`): two concrete inputs.

The formatter and the detection call are collaborators whose code is not part of this
model. Both are parameters: `fmt: string -> string` and
`detect: seq<bv8> -> Result<seq<Entry>>`. Nothing is assumed about `fmt`: it may
trim, filter or return the empty string.

Behaviour of the code that the model keeps as written:

- **The summary entry is grouped.** `extractShoppingList` passes the whole detected list
  to `algorithm` (`ImageTextDectector.java:40,52`). The detection service puts a
  whole-text summary entry first, and the test helper's comment says that entry "is
  to be ignored while making shopping queries" (`ImageTextDectectorTest.java:48-51`),
  but the code does not drop it. The model follows the code, so the summary entry
  takes part in the grouping (see `WorkedExamples`).
- **The baseline comes from the word after the line opener.** After a break
  `yAxisRef` is reset to 0 (`:78`). It is fixed again from the *next* word, just
  before that word is tested (`:67-68`). So the second word of a later line is only
  checked on x, and the line's baseline is the first non-zero y after its opening
  word. For the first line it is the first non-zero y from the first word on
  (`ScannedBaseline`, `LineBase`). One might expect the baseline to be fixed at the
  first word of each line; the code does not do that, and the model follows the code.
- **0 is the "unset" sentinel** for `yAxisRef` (`:61,67`). A word with y = 0 leaves the
  baseline unset.
- **The x reference is always the previous word** (`:81`). The unit test
  `multiWordsInSingleLineImage` (`ImageTextDectectorTest.java:108-122`) expects
  "Blue Shoes For Boys" as one line.
  The code breaks it at "For", whose x is left of "Shoes" (`:95`); see
  `WorkedExamples.LeftwardWordBreaksLine`. The unit tests also expect the prepended
  summary entry to disappear, but the code keeps it.
- **Integer width.** Coordinates are Java `int`, and the band ends `yAxisRef - 5` and
  `yAxisRef + 5` (`:96-97`) wrap around. When a reference y is less than 5 from
  `Integer.MIN_VALUE` or `Integer.MAX_VALUE`, the band is empty. If that happens on
  the first word, `algorithm` emits the formatted empty sentence before anything
  else (`FirstEntryOverflow`). The count bound and the characterization therefore
  assume that the first word's y is at least 5 away from the limits (`SafeY`).
  Pixel coordinates never come near these limits.

## Model

| member | source | states |
|---|---|---|
| TextEntry.Wrap32 | src/main/java/com/google/sps/ImageTextDectector.java:96-97 | Java `int` wrap-around: in-range values are unchanged, and values just past either limit come back around by 2^32 |
| ImageTextDetector.SameLineWord | src/main/java/com/google/sps/ImageTextDectector.java:89-101 | `checkForSameLineWord`: the current word passes when its x is not left of the reference x and its y lies between `yAxisRef - 5` and `yAxisRef + 5` inclusive, both ends computed with Java `int` wrap-around (`SameLineWordExact` gives it in plain arithmetic) |
| ImageTextDetector.Baseline | src/main/java/com/google/sps/ImageTextDectector.java:67-69 | the y reference a word is tested against: an unset (0) `yAxisRef` is first fixed from that word's own y, a set one is kept |
| ImageTextDetector.Joins | src/main/java/com/google/sps/ImageTextDectector.java:66-73 | the loop's test of a word: `checkForSameLineWord` against the previous word's x (`xAxisRef`) and the possibly just-fixed `yAxisRef` |
| GroupingProperties.SameLineWordExact | src/main/java/com/google/sps/ImageTextDectector.java:89-101 | `checkForSameLineWord` holds exactly when x >= xRef and yRef - 5 <= y <= yRef + 5 (inclusive), and the band does not wrap (yRef at least 5 from the `int` limits) |
| ImageTextDetector.Step | src/main/java/com/google/sps/ImageTextDectector.java:66-82 | one loop iteration: a word that passes the test is appended to the current line; one that fails opens a new line and resets the y reference to 0; the x reference becomes the word's x on both branches |
| ImageTextDetector.Scanned | src/main/java/com/google/sps/ImageTextDectector.java:60-82 | after any non-empty prefix, the x reference is the x of the last word processed, and there is always a current line |
| ImageTextDetector.Sentence | src/main/java/com/google/sps/ImageTextDectector.java:74-79 | a sentence is the words' texts, each followed by one space, so it is at least as long as the line has words |
| ImageTextDetector.Queries | src/main/java/com/google/sps/ImageTextDectector.java:76-84 | one formatted query per line |
| ImageTextDetector.Algorithm | src/main/java/com/google/sps/ImageTextDectector.java:57-87 | the imperative loop over the entries returns exactly `Group(entries, fmt)`, the formatted sentences of `Lines(entries)`, and at least one query |
| ImageTextDetector.CreateShoppingListQuery | src/main/java/com/google/sps/ImageTextDectector.java:46-55 | an empty list fails with PhotoDetectionException("Shopping List doesn't contain any text") and produces no queries; any other list is grouped whole |
| ImageTextDetector.ExtractShoppingList | src/main/java/com/google/sps/ImageTextDectector.java:38-43 | a failure of the detection call is returned unchanged, message included, and nothing is grouped; otherwise the result is that of `createShoppingListQuery` on the whole detected list |
| GroupingProperties.FirstEntryJoins | src/main/java/com/google/sps/ImageTextDectector.java:65-73 | the first word is tested against its own x and y, so it joins the first line exactly when its band does not wrap; then the first line is that word alone |
| GroupingProperties.XDecreaseBreaks | src/main/java/com/google/sps/ImageTextDectector.java:73-81 | the x reference at word i is the x of word i - 1; a word strictly left of its predecessor fails the test and opens a new line |
| GroupingProperties.AfterBreak | src/main/java/com/google/sps/ImageTextDectector.java:67-78 | after a break the y reference is 0; the next word is tested against its own y, so it joins the new line exactly when its x is not smaller than the opener's and its own y is at least 5 from the `int` limits (otherwise its band wraps and it opens yet another line) |
| GroupingProperties.ScannedBaseline | src/main/java/com/google/sps/ImageTextDectector.java:61-78 | the stored `yAxisRef` is the first non-zero y of the current line, not counting the line's opening word unless it is the first line |
| GroupingProperties.ScannedFlatten | src/main/java/com/google/sps/ImageTextDectector.java:73-80 | the lines, concatenated, are the input: every word lands in exactly one line, in input order |
| GroupingProperties.ScannedLaterLinesNonEmpty | src/main/java/com/google/sps/ImageTextDectector.java:75-79 | every line after the first is non-empty, since it is opened by the word that broke the previous one |
| GroupingProperties.SentencesCoverInput | src/main/java/com/google/sps/ImageTextDectector.java:73-80 | concatenating the unformatted sentences gives every word's text followed by one space, in input order |
| GroupingProperties.GroupIsFormattedSentences | src/main/java/com/google/sps/ImageTextDectector.java:75-84 | the output has one element per line, and element k is the formatter applied to line k's sentence |
| GroupingProperties.LineCountIsBreaksPlusOne | src/main/java/com/google/sps/ImageTextDectector.java:73-84 | the number of queries is one more than the number of words that failed the same-line test |
| GroupingProperties.LinesStartWithFirst | src/main/java/com/google/sps/ImageTextDectector.java:65-74 | when the first word's band does not wrap, the first line begins with the first word |
| GroupingProperties.LineCountBounds | src/main/java/com/google/sps/ImageTextDectector.java:65-84 | for a non-empty list whose first word's band does not wrap: at least one query, at most one per word, and no empty line |
| GroupingProperties.FirstEntryOverflow | src/main/java/com/google/sps/ImageTextDectector.java:94-97 | a single word at y = `Integer.MAX_VALUE` breaks against its own band, so the output is the formatted empty sentence followed by the word's query: two queries for one word |
| GroupingCharacterization.JoinsIsContinues | src/main/java/com/google/sps/ImageTextDectector.java:66-73 | the loop's test of the next word, against `xAxisRef` and `yAxisRef`, is the declarative test of that word appended to the current line: the previous word's x and the line's baseline |
| GroupingCharacterization.LinesAreGrouping | src/main/java/com/google/sps/ImageTextDectector.java:60-84 | the loop's lines meet `IsGrouping`: an in-order partition of the input into non-empty lines, each word inside a line passes `checkForSameLineWord` against its predecessor's x and the line's baseline, and each later line opens with a word that fails it |
| GroupingCharacterization.GroupingIsUnique | src/main/java/com/google/sps/ImageTextDectector.java:60-84 | any partition meeting `IsGrouping` is the loop's |
| GroupingCharacterization.GroupingCharacterizesLines | src/main/java/com/google/sps/ImageTextDectector.java:57-87 | `IsGrouping(es, lines)` holds exactly when `lines == Lines(es)`, so the returned queries are determined by the input alone |
| GroupingCharacterization.ScannedLineHolds | src/main/java/com/google/sps/ImageTextDectector.java:66-81 | after any prefix of any input, each word inside every line passes `checkForSameLineWord` against its predecessor's x and the line's baseline; no hypothesis on the first word, since the empty line a wrapping band leaves behind holds this trivially |
| GroupingCharacterization.LinesAreRuns | src/main/java/com/google/sps/ImageTextDectector.java:94-97 | for every non-empty input: inside a line x never decreases from one word to the next, and each word after the first lies within 5 of the line's baseline |
| WorkedExamples.TwoLinesWithSummaryEntry | src/test/java/com/google/sps/ImageTextDectectorTest.java:141-155 | on that test's input, with the prepended summary entry kept as the code keeps it, the result is the formatted "Will be ignored ", "Canon Camera " and "Pink shoes " |
| WorkedExamples.LeftwardWordBreaksLine | src/test/java/com/google/sps/ImageTextDectectorTest.java:108-122 | on that test's input (summary entry kept), "For" left of "Shoes" breaks the line, and "Boys" joins "For": the result is the formatted "Will be ignored Blue Shoes " and "For Boys " |

## Left out

- `TextDetectionAPI` and its Cloud Vision implementation are not part of this model. The
  detection call is a function parameter that returns either the entries or a failure.
  The image bytes it reads, its I/O and its `IOException`s are not modelled beyond that
  failure.
- `PhotoShoppingUtil.formatQuery` is not part of this model. It is the parameter `fmt`,
  and no property of it is assumed.
- The `ImageTextDectector` constructor only stores the detection service. The model
  passes that service to `ExtractShoppingList` as a parameter.
- The entry list and the query list are Java `List`s. They are modelled as sequences,
  so aliasing of the list returned by the detection service is not modelled.
- A `null` text, which Java's string concatenation would render as "null", is not
  modelled; texts are sequences of characters.
- The web page script, the shopping-results page fetch (`GoogleShoppingResultsWrapper`),
  the settings carrier `ShoppingQueryInput` and the test double
  `FakeTextDetectionAPIImpl` are glue or test code with no grouping logic.
- GroupingProperties.LineCountBounds: proved only when the first word's y is at least 5
  from the `int` limits. Otherwise the bound fails, as `FirstEntryOverflow` shows.
- GroupingProperties.LinesStartWithFirst: same hypothesis, for the same reason.
- GroupingCharacterization.LinesAreGrouping: same hypothesis. Otherwise the first line
  is empty and the partition is not one of non-empty lines.
- GroupingCharacterization.GroupingIsUnique: same hypothesis as `LinesAreGrouping`.
- GroupingCharacterization.GroupingCharacterizesLines: same hypothesis as
  `LinesAreGrouping`.
