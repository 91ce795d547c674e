# Duration annotator of libtextclassifier, modelled in Dafny

The duration annotator finds spoken durations in tokenized text: "15 minutes",
"half an hour", "3 hours and 5 seconds", "an hour and a half". Each one is
reported as a half-open codepoint span with the collection `"duration"` and the
length of the duration in milliseconds. The annotator is built once from an
options table, which gives an enabled flag, the words for each unit (week, day,
hour, minute, second), the filler words and the half words. After that it
answers two calls:

- `FindAll` takes a whole token stream and reports every match.
- `ClassifyText` takes a context and a selection, and says whether the selected
  text is one duration.

The implementation file `annotator/duration/duration.cc` is not part of this
model's sources. Its behaviour is pinned down by `annotator/duration/duration_test.cc`
(the options at lines 35-68, the space tokenizer at lines 70-93, the cases at
lines 112-245). The matcher modelled here is a reconstruction that reproduces
every case of duration_test.cc: a single walk over the tokens with a few state
variables.

- A quantity token opens the match if it is not open yet. It is either a half
  word, which sets "plus half" on the atom being built, or a decimal number,
  which sets its value.
- A unit word completes the atom, opens the match if needed and moves its end
  to the end of the unit word.
- A filler is passed over. It neither opens the match nor moves its end, so
  leading and trailing fillers stay outside the span.
- Any other token ends the walk.
- If a half word comes after the last unit word ("and a half"), the match
  gains half of that unit and ends at the last quantity token after that unit
  word. That is the half word itself unless a number follows it, so
  "an hour and a half" ends at "half".
- An atom whose value is 0 and that has no half counts as one unit. The value
  is 0 both when no number was said ("an hour") and when the number 0 was
  said, so "0 minutes" counts as one minute.

`FindAll` resumes after each match, or one token later when there is none.
`ClassifyText` tokenizes the selected text on its own and accepts it when one
match, starting at its first token, takes in all of its tokens.

Modules:

- `Tokenization` (tokenization.dfy): the test tokenizer, which splits on
  codepoint 32 only. It is proved to be the space split of its input, and a
  text of words joined by single spaces is proved to tokenize to those words.
- `DurationConfig` (duration_config.dfy): the options, the word tables built
  from them, and the parsing of a single token as a quantity, a unit word or a
  filler.
- `DurationScanner` (duration_scanner.dfy): the matcher as functions of the
  word tables and the tokens. These are the specification the methods are
  proved against.
- `Duration` (duration_annotator.dfy): the annotator object. Its constructor
  fills the unit table with a loop over each unit's word list; the filler
  and half sets are taken from their lists directly. `FindDurationStartingAt`, `FindAll` and
  `ClassifyText` are methods over mutable variables, each proved equal to its
  specification function.
- `DurationProperties` (duration_properties.dfy) and `DurationExtent`
  (duration_extent.dfy): properties for every input.
  - A match begins and ends on a quantity or unit word. More precisely, it is
    the union of its groups: it runs from the first quantity or unit word to
    the last unit word, or to the last quantity after it when a half word
    follows. It has one group per unit word, holding that word's unit, the
    last number and any half word since the previous unit word.
  - It takes in only words the annotator recognizes and stops at the first one
    it does not.
  - It lies within its tokens.
  - Its milliseconds are exact in half units. Twice the total is the sum of
    the groups' half units times their unit, plus the last unit for a
    trailing half.
  - FindAll's matches are ordered and do not overlap.
  - A disabled annotator finds nothing.
  - Classification is exactly a whole-selection match.
- `DurationTest` (duration_test.dfy): every case of the test file, stated as
  an equality about the annotator built from the test options. Each FindAll
  text is written as its list of words joined by single spaces
  (`JoinWords`), and the tokens are proved from that form.

The test file leaves a few choices open. The reconstruction settles them as
follows:

- "a", "an" and "one" are not separate quantity words. They are the fillers
  the options list. A unit word with no number before it counts as one through
  the atom's default value. The tests decide it: "an hour and a half" starts
  at "hour" (duration_test.cc:205), and "half an hour" is 1,800,000 ms
  (duration_test.cc:182). Reading "an" as the quantity 1 would start the
  first at "an" and make the second 5,400,000 ms.
- A selection is not widened to the tokens that cover it, and a match that
  only overlaps it is not enough. The selected text is tokenized alone, and
  one match must take in all of it. The misaligned case decides it: over the
  whole text's tokens, the selection is covered by "in15" and "minutesok?",
  which match nothing, so only tokenizing the selection alone gives 900000 ms
  (`DurationTest.MisalignedWholeTextFindsNothing`).
- Numbers are decimal digit strings. Fractions such as "2.5" are not numbers,
  and a leading zero does not change a number's value.

## Model

| member | source | states |
|---|---|---|
| DurationConfig.WithUnitWords | annotator/duration/duration_test.cc:40-53 | after entering a unit's word list, the table's keys are the old keys plus exactly the listed words; each listed word names that unit and every other entry is unchanged |
| DurationConfig.TokenToDurationUnit | annotator/duration/duration_test.cc:40-53 | a word is in the unit table iff some unit list holds it, and it names the unit of the last list holding it (second beats minute, hour, day, week) |
| DurationConfig.BuildLexicon | annotator/duration/duration_test.cc:35-60 | the tables built from the options: a word is a unit word iff a unit list holds it, a filler iff the filler list holds it, a half word iff the half list holds it; the enabled flag is kept; every unit word names a real unit |
| DurationConfig.ParseDecimalString | annotator/duration/duration_test.cc:135 | every number, written in decimal digits, reads back as itself |
| DurationConfig.ParseDecimalLeadingZero | annotator/duration/duration_test.cc:135 | a leading zero does not change the value a digit string reads as |
| DurationConfig.ParseQuantityToken | annotator/duration/duration_test.cc:145-156 | a token is the half quantity iff it is a non-empty half word; it is a number iff it is not a half word and is a non-empty digit string, and then its value is those digits in base ten, so a half word wins over a number |
| DurationConfig.TokenParsersOfOptions | annotator/duration/duration_test.cc:40-60 | for an annotator built from options, a word parses as a unit word iff some unit list holds it, naming the unit of the last such list; as a filler iff the filler list holds it; as the half quantity iff the half list holds it; and the decimal writing of any number that is not a half word parses as that number |
| Duration.FillDurationUnitMap | annotator/duration/duration_test.cc:40-53 | the loop over one word list leaves the table that entering those words in order gives |
| Duration.BuildTokenToDurationUnitMapping | annotator/duration/duration_test.cc:40-53 | filling the table list by list, week first and second last, gives the unit table of the options |
| Duration.DurationAnnotator.constructor | annotator/duration/duration_test.cc:95-101 | an annotator constructed from options holds exactly the word tables of those options |
| Duration.ParsedDurationAtomsToMillis | annotator/duration/duration_test.cc:158-170 | the loop's total is the sum of the atoms' milliseconds: value units, one unit when the value is 0 and no half was said, plus half a unit when a half was said |
| DurationProperties.AtomMillisInHalves | annotator/duration/duration_test.cc:145-156 | an atom's milliseconds, doubled, are exactly its quantity in half units times the unit's milliseconds, so no rounding happens |
| DurationProperties.AtomsMillisAtLeast | annotator/duration/duration_test.cc:132-143 | atoms that all have a unit add up to at least half a second each |
| DurationScanner.Scan | annotator/duration/duration_test.cc:132-143 | the walk stops at an index between its start and the end of the tokens, and a walk that takes in no token leaves the state as it was |
| DurationProperties.ScanStops | annotator/duration/duration_test.cc:225-236 | every token the walk passes is a quantity, unit or filler word, and if it stops before the end, the token it stops at is none of these |
| DurationScanner.FindDurationAt | annotator/duration/duration_test.cc:132-143 | the next index lies between the start and the end of the tokens; it equals the start exactly when there is no match; a match carries exactly one "duration" classification |
| Duration.DurationAnnotator.FindDurationStartingAt | annotator/duration/duration_test.cc:132-143 | the token walk over mutable variables returns the next index and the match of the matcher function |
| DurationProperties.MatchBoundaries | annotator/duration/duration_test.cc:225-236 | a match takes in only recognized words and ends at the end of the tokens or at an unrecognized word; its span is well formed and begins at the start of a quantity or unit word and ends at the end of one, so fillers at either edge stay outside |
| DurationProperties.MatchWithinTokens | annotator/duration/duration_test.cc:132-143 | a match's span lies between the start of its first token and the end of its last |
| DurationProperties.MatchIsDuration | annotator/duration/duration_test.cc:138-142 | every match is one "duration" classification of at least 500 ms |
| DurationExtent.MatchIsUnionOfGroups | annotator/duration/duration_test.cc:158-209 | there is a match iff the walk takes in a unit word, and then it ends where the walk stops. Its span starts at the first quantity or unit word taken in. It ends at the last unit word, or, when a half word follows that unit word, at the last quantity after it. Its groups are `Groups` of the tokens taken in: one per unit word, in order, each with that word's unit, the value of the last number since the previous unit word (0 when none) and whether a half word was said since it. Twice its milliseconds are those groups' half units times their units, plus the last unit for a trailing half |
| DurationExtent.AtomsMillisInHalves | annotator/duration/duration_test.cc:145-156 | twice the milliseconds of a list of groups are the sum of each group's half units times its unit's milliseconds |
| DurationProperties.NoUnitWordNoMatch | annotator/duration/duration_test.cc:238-245 | a walk that meets only fillers and quantities before it stops finds no match and does not advance |
| DurationProperties.FindAllFromOrdered | annotator/duration/duration_test.cc:225-236 | the matches reported from a token on are well formed, in increasing order and non-overlapping, begin no earlier than that token, and each is one duration of at least 500 ms |
| DurationProperties.FindAllOrdered | annotator/duration/duration_test.cc:132-143 | FindAll's matches are well formed, in increasing order and non-overlapping |
| Duration.DurationAnnotator.FindAll | annotator/duration/duration_test.cc:132-245 | it always reports success, and it appends to the caller's results exactly the matches found left to right, resuming after each match, or none when disabled |
| DurationProperties.DisabledFindsNothing | annotator/duration/duration_test.cc:35-38 | a disabled annotator finds nothing and classifies nothing |
| DurationProperties.ClassifyIsWholeSelectionMatch | annotator/duration/duration_test.cc:112-130 | a selection is classified iff a match starting at its first token takes in all its tokens; FindAll over the selection then reports exactly that match, and the classification is that match's |
| Duration.DurationAnnotator.ClassifyText | annotator/duration/duration_test.cc:112-130 | the method over mutable variables gives the classification of the selection |
| Tokenization.TokenizeIsSpaceSplit | annotator/duration/duration_test.cc:77-82 | the tokens are the maximal runs of non-space codepoints, in strictly increasing order, covering every non-space codepoint, with their offsets in the text |
| Tokenization.TokenizeJoin | annotator/duration/duration_test.cc:103-105 | words without spaces joined by single spaces tokenize to those words, each at its own offset |
| DurationTest.TestingLexiconIs | annotator/duration/duration_test.cc:35-68 | the test options give the ten unit words, the fillers "and", "a", "an", "one" and the half word "half" |
| DurationTest.ClassifiesSimpleDuration | annotator/duration/duration_test.cc:112-120 | selection {14, 24} of "Wake me up in 15 minutes ok?" is a duration of 900000 ms |
| DurationTest.ClassifiesWhenTokensDontAlignWithSelection | annotator/duration/duration_test.cc:122-130 | selection {13, 23} of "Wake me up in15 minutesok?" is a duration of 900000 ms |
| DurationTest.MisalignedWholeTextFindsNothing | annotator/duration/duration_test.cc:122-130 | the whole text "Wake me up in15 minutesok?", written as its words joined by single spaces and tokenized as a whole, holds no duration, since "in15" and "minutesok?" are not recognized |
| DurationTest.FindsSimpleDuration | annotator/duration/duration_test.cc:132-143 | FindAll over the tokens of "Wake me up in 15 minutes ok?" gives exactly [14, 24) with 900000 ms |
| DurationTest.FindsDurationWithHalfExpression | annotator/duration/duration_test.cc:145-156 | "Set a timer for 3 and half minutes ok?" gives exactly [16, 34) with 210000 ms |
| DurationTest.FindsComposedDuration | annotator/duration/duration_test.cc:158-170 | "Wake me up in 3 hours and 5 seconds ok?" gives exactly [14, 35) with 10805000 ms |
| DurationTest.FindsHalfAnHour | annotator/duration/duration_test.cc:172-183 | "Set a timer for half an hour" gives exactly [16, 28) with 1800000 ms |
| DurationTest.FindsWhenHalfIsAfterGranularitySpecification | annotator/duration/duration_test.cc:185-196 | "Set a timer for 1 hour and a half" gives exactly [16, 33) with 5400000 ms |
| DurationTest.FindsAnHourAndAHalf | annotator/duration/duration_test.cc:198-209 | "Set a timer for an hour and a half" gives exactly [19, 34) with 5400000 ms |
| DurationTest.FindsCorrectlyWhenSecondsComeSecondAndDontHaveNumber | annotator/duration/duration_test.cc:211-223 | "Set a timer for 10 minutes and a second ok?" gives exactly [16, 39) with 601000 ms |
| DurationTest.DoesNotGreedilyTakeFillerWords | annotator/duration/duration_test.cc:225-236 | "Set a timer for a a a 10 minutes and 2 seconds an and an ok?" gives exactly [22, 46) with 602000 ms |
| DurationTest.DoesNotCrashWhenJustHalfIsSaid | annotator/duration/duration_test.cc:238-245 | "Set a timer for half ok?" gives no match |

## Left out

- The flatbuffers packing and unpacking of the option tables are left out. The options are a Dafny datatype holding the word lists.
- UniLib and UTF-8 decoding are left out. Text is a sequence of codepoints (`string`), and offsets are codepoint indices.
- The feature processor is left out apart from its space tokenizer. Context size, maximum selection span and the other codepoint-range settings do not bear on the duration matcher.
- The annotation usecase argument is left out. Every test passes the raw usecase, and the model does not branch on it.
- The score and priority fields of a classification are left out, because no test reads them.
- Floating point is left out. Milliseconds are exact integers, and half a unit is half of that unit's milliseconds. All the units have an even number of milliseconds.
- Machine integer widths are left out. Numbers, products and millisecond totals are unbounded integers. An implementation with fixed-width integers overflows for large enough durations: "4 weeks" is 2,419,200,000 ms, above 2^31 - 1, and the model gives that exact value. Where such an implementation overflows first is not modelled.
- Signs, surrounding whitespace and case folding of number and word tokens are not modelled. Words match exactly.
- Base prefixes of numbers are not modelled. Every digit string is read in base ten. A C-style integer parse that honours prefixes would read "010" as 8 and reject "08", where the model reads 10 and 8. No test text has such a number.
- The test harness (gtest, the static initialisation, the printing of results) is left out. Each test case becomes a lemma.
