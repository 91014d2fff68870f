# Advent of Code 2023, days 1 and 2, in Dafny

A model of two puzzle solutions from a Rust workspace, with proofs about the model.

- **Day 1: "Trebuchet?!"** Each line of a calibration document yields a two-digit value. That value is the line's first number times ten plus its last number.
  - In part 1 the numbers are ASCII digits. `get_numeric_chars_from_line` finds them with two cursors that walk inwards from both ends of the line.
  - In part 2 the numbers are digits or the spelled words `one` … `nine` and `zero`. A left-to-right scan over a word table finds the first one. The last one is found by scanning the reversed line against the table of reversed words.
- **Day 2: "Cube Conundrum"** Each line records a game: an id and the handfuls (picks) of red, green and blue cubes shown.
  - Part 1 sums the ids of the games that a given bag allows.
  - Part 2 sums, over the games, the product of the fewest cubes of each colour that make the game possible.

Modules, one per file:

| file | module | contents |
|---|---|---|
| `strings.dfy` | `Strings` | The pieces of Rust's `str` the programs use: `lines`, `split`, `split_ascii_whitespace`, `parse`, `chars().rev()`, and their round trips. |
| `day1_scan.dfy` | `Day1Scan` | The part 2 word table and scanner, the reversal trick, the line value and the total. It also has an independent "token that ends rightmost" definition that the reversal is proved against. |
| `day1_scan_tests.dfy` | `Day1ScanTests` | The part 2 unit tests as lemmas. |
| `day1_walk.dfy` | `Day1Walk` | The part 1 dual-cursor walk as an imperative method, proved equal to a closed form. It also has a corrected walk and the part 1 total. |
| `day1_walk_tests.dfy` | `Day1WalkTests` | The part 1 unit tests as lemmas, as written and corrected. |
| `day2.dfy` | `Day2` | `Pick`, `Game` and `Problem`, validity, minimum cubes and both answers. |
| `day2_parse.dfy` | `Day2Parse` | `read_line_into_game` as a method with its nested loops, proved equal to the function `ParseGame`. It also has `read_file_into_problem`. |
| `day2_render.dfy` | `Day2Render` | Game lines written out in the puzzle format. It proves that such a line reads back as the game it describes. |
| `day2_tests.dfy` | `Day2Tests` | The day 2 unit tests as lemmas. |

A panic in the Rust code becomes an error value in the model:

- part 1 of day 1: the `Panic` / `NoNumber` outcomes;
- part 2 of day 1: `None`;
- day 2: a `ParseError` naming which `expect`, index or overflow fails.

Each loop of the source is an imperative method whose `ensures` ties its result to a function of the inputs. These functions are what the method contracts mean, and the lemmas in the table characterise them:

- `Day1Scan.FirstToken` for the part 2 scan;
- `Day1Walk.Walk` for the part 1 walk as written, and `Day1Walk.FixedWalk` for the corrected walk;
- `Day1Walk.Combine` for the final `push` and `parse::<i32>` (day1.rs:118-122);
- `Day2Parse.ParseGame` for `read_line_into_game`, built from `ParseCube` (one cube entry), `AddCount` (the `+=`), `AddUp` (one pick's entries) and `PickOf` (one `;` segment).

All integers are unbounded `nat`/`int`. `u8` and `u32` are the subset types `Day2.U8` and `Day2.U32`.

## Model

| member | source | states |
|---|---|---|
| Strings.ParseUnsigned | src/advent2023/day2.rs:100 | `str::parse` for an unsigned type with an optional `+`; the result never exceeds the type's maximum |
| Strings.ParseDecimalString | src/advent2023/day2.rs:124 | parsing the decimal text of any in-range value gives the value back |
| Strings.ParseSigned | src/advent2023/day1.rs:118-124 | `str::parse::<i32>` takes an optional sign and stays within the type's range |
| Strings.DecimalString | src/advent2023/day2.rs:124 | the decimal text of a value is a non-empty digit string denoting that value, with no leading zero |
| Strings.Reverse | src/advent2023/day1.rs:155 | `chars().rev()`: the same length, with position i holding the character from the mirrored position |
| Strings.ReverseInvolutive | src/advent2023/day1.rs:155 | reversing twice gives the text back |
| Strings.StartsWithReverse | src/advent2023/day1.rs:180-181 | a reversed word starts the reversed text exactly when the word ends the text |
| Strings.WordPrefix | src/advent2023/day2.rs:88 | the leading run of non-whitespace: a prefix that stops at the first ASCII whitespace |
| Strings.SplitAsciiWhitespace | src/advent2023/day2.rs:88 | every word is non-empty and holds no ASCII whitespace |
| Strings.SplitUnwords | src/advent2023/day2.rs:88 | words joined by single spaces, with one space in front, split back into those words |
| Strings.SplitWordAndUnwords | src/advent2023/day2.rs:88 | a word followed by space-led words splits into that word and the rest |
| Strings.Split | src/advent2023/day2.rs:84 | `split(sep)` yields at least one piece, and no piece holds the separator |
| Strings.JoinSplit | src/advent2023/day2.rs:84 | joining the pieces of a split with the separator gives the text back |
| Strings.SplitPiece | src/advent2023/day2.rs:89 | a piece free of the separator, then the separator, splits off as the first piece |
| Strings.SplitJoin | src/advent2023/day2.rs:89 | pieces free of the separator, joined by it, split back into exactly those pieces |
| Strings.Lines | src/advent2023/day2.rs:78 | `str::lines`: no line holds a newline |
| Strings.LinesOfJoin | src/advent2023/day1.rs:31 | lines joined by `\n`, the last one non-empty, come back out of `lines` unchanged |
| Strings.LinesOfLines | src/advent2023/day1.rs:31 | splitting such lines at newlines and dropping a trailing `\r` changes nothing |
| Day1Scan.ReverseTable | src/advent2023/day1.rs:15-26 | the table with each word spelled backwards and the values kept |
| Day1Scan.RevNumbersReversed | src/advent2023/day1.rs:15-26 | REV_NUMBERS is NUMBERS with every word reversed, entry by entry, in the same order |
| Day1Scan.NumbersWellFormed | src/advent2023/day1.rs:2-13 | every word of NUMBERS is non-empty and digit-free, with a value below ten |
| Day1Scan.NumbersPrefixFree | src/advent2023/day1.rs:2-13 | no word of NUMBERS is a prefix of another, so at most one word starts at any position |
| Day1Scan.NumbersCodes | src/advent2023/day1.rs:2-13 | every word has at least three letters, and its first and last three letters are the recorded codes |
| Day1Scan.CodesDistinct | src/advent2023/day1.rs:2-13 | no two words share their first three letters, nor their last three |
| Day1Scan.ReverseWellFormed | src/advent2023/day1.rs:15-26 | reversing the words of a well-formed table keeps it well formed |
| Day1Scan.FirstMatch | src/advent2023/day1.rs:180-184 | the first table entry whose word starts the text, with no earlier entry doing so; none exactly when no word starts it |
| Day1Scan.FirstMatchFrom | src/advent2023/day1.rs:180-184 | the same, searching the table from a given entry onwards |
| Day1Scan.FirstMatchUnique | src/advent2023/day1.rs:180-184 | an entry that starts the text, with none before it, is the one the search returns |
| Day1Scan.LeftmostToken | src/advent2023/day1.rs:174-187 | the first position holding a digit or a table word, with no such position before it; none exactly when no position below the bound holds one |
| Day1Scan.Prefilter | src/advent2023/day1.rs:166-172 | keeps, in order, only table entries whose word is no longer than the text |
| Day1Scan.PrefilterHarmless | src/advent2023/day1.rs:166-184 | matching a text no longer than the bound against the prefiltered table gives the same value as the full table |
| Day1Scan.PrefilterKeepsScan | src/advent2023/day1.rs:162-188 | dropping words longer than the line never changes what the scan returns |
| Day1Scan.FirstNumericCharOrNumberSpelled | src/advent2023/day1.rs:162-188 | the loop returns the value of the leftmost token: the digit at a position, else the first table word starting there; none when no position holds either |
| Day1Scan.ScanFailsIffNoToken | src/advent2023/day1.rs:174-187 | the scan fails exactly when no position holds a digit or the start of a table word |
| Day1Scan.TokenAtChoice | src/advent2023/day1.rs:175-185 | at a position a digit wins over any word, and among words the first table entry wins |
| Day1Scan.ScanLeftmostWins | src/advent2023/day1.rs:174-187 | the scan returns v exactly when some position yields v and no earlier position yields anything |
| Day1Scan.FirstTokenIsLeftmost | src/advent2023/day1.rs:174-187 | a token at p with none before it is the scan's result |
| Day1Scan.TokenValueBelowTen | src/advent2023/day1.rs:176-177 | over a well-formed table every scan result is a single digit |
| Day1Scan.MatchValueAppend | src/advent2023/day1.rs:180-184 | matching against two tables in sequence tries the first table, then the second |
| Day1Scan.FirstNumber | src/advent2023/day1.rs:147-149 | the first number of a line is a single digit |
| Day1Scan.LastNumber | src/advent2023/day1.rs:153-156 | the last number of a line is a single digit |
| Day1Scan.FirstMatchReverse | src/advent2023/day1.rs:153-156 | the first reversed word that starts a reversed text is the first word that ends the text |
| Day1Scan.MatchValueReverse | src/advent2023/day1.rs:153-156 | matching a reversed text against reversed words gives the value of the first word that ends the text |
| Day1Scan.TokenAtReverse | src/advent2023/day1.rs:153-156 | a token starting at p of the reversed line is the token ending at the mirrored position of the line |
| Day1Scan.LastTokenByReversal | src/advent2023/day1.rs:153-156 | scanning the reversed line against the reversed table finds the token that ends rightmost in the line |
| Day1Scan.LastNumberIsRightmost | src/advent2023/day1.rs:153-156 | get_last_number_as_u8 with REV_NUMBERS returns the number that ends rightmost in the line |
| Day1Scan.FirstSuffixMatch | src/advent2023/day1.rs:153-156 | the first table entry whose word ends the text, with no earlier entry doing so |
| Day1Scan.FirstSuffixMatchFrom | src/advent2023/day1.rs:153-156 | the same, searching the table from a given entry onwards |
| Day1Scan.RightmostToken | src/advent2023/day1.rs:153-156 | the last position below the bound where a digit or table word ends, with none after it |
| Day1Scan.LastTokenIsRightmost | src/advent2023/day1.rs:153-156 | a token ending at e, with none ending after e, is the last number |
| Day1Scan.WordEndStartsToken | src/advent2023/day1.rs:153-156 | a word ending at e starts a token at e + 1 minus its length |
| Day1Scan.WordStartEndsToken | src/advent2023/day1.rs:147-156 | a word starting at p ends a token at p plus its length minus one |
| Day1Scan.TokenStartsIffEnds | src/advent2023/day1.rs:147-156 | the first-number and last-number searches fail on exactly the same lines |
| Day1Scan.SingleTokenEnds | src/advent2023/day1.rs:147-156 | over a prefix-free table, a line with a single token has that token as both first and last number |
| Day1Scan.WordEndsAt | src/advent2023/day1.rs:147-156 | a table word starting at p lies inside the line and ends on a letter, not a digit |
| Day1Scan.SingleWordEnds | src/advent2023/day1.rs:147-156 | when a line's only token is the word at p, the token ending where that word ends is the same word |
| Day1Scan.OnlyWordEndingThere | src/advent2023/day1.rs:153-156 | over a prefix-free table, the only word that can end where the line's single word ends is that word |
| Day1Scan.NoWordEndsAfter | src/advent2023/day1.rs:153-156 | after the end of a line's only token, no token ends |
| Day1Scan.SingleTokenLine | src/advent2023/day1.rs:136-143 | a line holding one number v has value 11·v ("treated as the first and last number") |
| Day1Scan.LineValue | src/advent2023/day1.rs:138-143 | a line's value is at most 99 |
| Day1Scan.LineValueFromEnds | src/advent2023/day1.rs:138-143 | a line has no value exactly when it holds no number; otherwise the value is 10·first + last |
| Day1Scan.SumLineValues | src/advent2023/day1.rs:128-133 | the total exists exactly when every line has a value, and it is at most 99 per line |
| Day1Scan.SumOfKnownValues | src/advent2023/day1.rs:128-133 | lines of known values total the sum of those values |
| Day1Scan.TrebuchetPart2 | src/advent2023/day1.rs:128-133 | trebuchet_part_2 has an answer exactly when every line of the input has a value; the answer is at most 99 per line |
| Day1Scan.TrebuchetPart2OfLine | src/advent2023/day1.rs:128-133 | the answer for a single non-empty line is that line's value |
| Day1ScanTests.FirstNumberSimpleWord | src/advent2023/day1.rs:329-333 | the first number of "onezy" is 1 |
| Day1ScanTests.FirstNumberSimpleWord2 | src/advent2023/day1.rs:336-340 | the first number of "zzonezy" is 1 |
| Day1ScanTests.FirstNumberSimpleDigit | src/advent2023/day1.rs:343-347 | the first number of "4zzonezy" is 4 |
| Day1ScanTests.FirstNumberSimpleDigitMiddle | src/advent2023/day1.rs:350-354 | the first number of "zz4onezy" is 4 |
| Day1ScanTests.FirstNumberSimpleDigitEnd | src/advent2023/day1.rs:357-361 | the first number of "zzonzy4" is 4 |
| Day1ScanTests.FirstNumberWordAtEnd | src/advent2023/day1.rs:364-368 | the first number of "zzzzzzzzseven" is 7 |
| Day1ScanTests.FirstNumberWordTowardsEnd | src/advent2023/day1.rs:371-375 | the first number of "zzzzzzzzsevenzzzz" is 7 |
| Day1ScanTests.FirstNumberWordTowardsFront | src/advent2023/day1.rs:378-382 | the first number of "zsevenzzzz" is 7 |
| Day1ScanTests.FirstNumberWordAtFront | src/advent2023/day1.rs:385-389 | the first number of "sevenzzzz" is 7 |
| Day1ScanTests.Part2FullExample | src/advent2023/day1.rs:392-403 | the seven example lines, joined by newlines, total 281 |
| Day1ScanTests.Part2ExampleLinesSplit | src/advent2023/day1.rs:392-403 | `lines` splits the joined example back into its seven lines |
| Day1ScanTests.Part2ExampleSum | src/advent2023/day1.rs:392-403 | the seven example lines total 281 |
| Day1ScanTests.Part2ExampleLineValues | src/advent2023/day1.rs:406-452 | each example line has the value its own test expects |
| Day1ScanTests.Part2ExampleTotal | src/advent2023/day1.rs:392-403 | the seven expected values add up to 281 |
| Day1ScanTests.Part2Example1 | src/advent2023/day1.rs:406-410 | "two1nine" has value 29, and trebuchet_part_2 of that line alone gives 29 |
| Day1ScanTests.Part2Example1First | src/advent2023/day1.rs:406-410 | its first number is 2 |
| Day1ScanTests.Part2Example1Last | src/advent2023/day1.rs:406-410 | its last number is 9 |
| Day1ScanTests.Part2Example2 | src/advent2023/day1.rs:413-417 | "eightwothree" has value 83, and trebuchet_part_2 of that line alone gives 83 |
| Day1ScanTests.Part2Example2First | src/advent2023/day1.rs:413-417 | its first number is 8 |
| Day1ScanTests.Part2Example2Last | src/advent2023/day1.rs:413-417 | its last number is 3 |
| Day1ScanTests.Part2Example3 | src/advent2023/day1.rs:420-424 | "abcone2threexyz" has value 13, and trebuchet_part_2 of that line alone gives 13 |
| Day1ScanTests.Part2Example3First | src/advent2023/day1.rs:420-424 | its first number is 1 |
| Day1ScanTests.Part2Example3Last | src/advent2023/day1.rs:420-424 | its last number is 3 |
| Day1ScanTests.Part2Example4 | src/advent2023/day1.rs:427-431 | "xtwone3four" has value 24, and trebuchet_part_2 of that line alone gives 24 |
| Day1ScanTests.Part2Example4First | src/advent2023/day1.rs:427-431 | its first number is 2 |
| Day1ScanTests.Part2Example4Last | src/advent2023/day1.rs:427-431 | its last number is 4 |
| Day1ScanTests.Part2Example5 | src/advent2023/day1.rs:434-438 | "4nineeightseven2" has value 42, and trebuchet_part_2 of that line alone gives 42 |
| Day1ScanTests.Part2Example5First | src/advent2023/day1.rs:434-438 | its first number is 4 |
| Day1ScanTests.Part2Example5Last | src/advent2023/day1.rs:434-438 | its last number is 2 |
| Day1ScanTests.Part2Example6 | src/advent2023/day1.rs:441-445 | "zoneight234" has value 14, and trebuchet_part_2 of that line alone gives 14 |
| Day1ScanTests.Part2Example6First | src/advent2023/day1.rs:441-445 | its first number is 1 |
| Day1ScanTests.Part2Example6Last | src/advent2023/day1.rs:441-445 | its last number is 4 |
| Day1ScanTests.Part2Example7 | src/advent2023/day1.rs:448-452 | "7pqrstsixteen" has value 76, and trebuchet_part_2 of that line alone gives 76 |
| Day1ScanTests.Part2Example7First | src/advent2023/day1.rs:448-452 | its first number is 7 |
| Day1ScanTests.Part2Example7Last | src/advent2023/day1.rs:448-452 | its last number is 6 |
| Day1Walk.Reach | src/advent2023/day1.rs:45-87 | the front cursor inspects half the line, rounded up, before the cursors meet, and none of a line of one character |
| Day1Walk.FirstDigitBelow | src/advent2023/day1.rs:45-79 | the first digit among the first k positions; none exactly when there is no digit there |
| Day1Walk.LastDigitFrom | src/advent2023/day1.rs:81-111 | the last digit at or after position k; none exactly when there is no digit there |
| Day1Walk.Meet | src/advent2023/day1.rs:54-74 | when the cursors meet, a character found on one side only is copied to the other; "neither" exactly when nothing was found |
| Day1Walk.NumericCharsFromLine | src/advent2023/day1.rs:39-125 | the two-cursor loop, as written, computes the closed form `Walk` (leftmost digit in the front half paired with the character mirrored to it) |
| Day1Walk.ParseTwoDigits | src/advent2023/day1.rs:118-124 | two collected characters starting with a digit parse as an i32 exactly when the second is a digit, giving 10·a + b |
| Day1Walk.FirstDigitBelowLeftmost | src/advent2023/day1.rs:45-79 | the first digit below k is the line's leftmost digit when that lies below k, else none |
| Day1Walk.WalkNumberIff | src/advent2023/day1.rs:39-125 | the walk yields a number exactly when the leftmost digit lies in the inspected half and its mirror character is a digit; the number is 10·digit + mirror digit |
| Day1Walk.WalkNoNumberIff | src/advent2023/day1.rs:54-107 | the walk reports "no number" exactly when the line is non-empty and the inspected half holds no digit |
| Day1Walk.WalkPanicIff | src/advent2023/day1.rs:43-122 | the walk panics exactly on the empty line (the usize underflow), or when the mirror character of the leftmost front digit is no digit (the i32 parse at 122) |
| Day1Walk.MiddleDigitCopied | src/advent2023/day1.rs:87-107 | on an odd-length line whose only front digit is the middle one, the middle digit is doubled |
| Day1Walk.WalkAt | src/advent2023/day1.rs:39-125 | the first digit at an inspected position p fixes the walk's result from line[p] and its mirror |
| Day1Walk.NumericCharsFromLineFixed | src/advent2023/day1.rs:39-125 | the walk whose back test at line 109 examines the back character computes `FixedWalk` |
| Day1Walk.LeftmostRightmost | src/advent2023/day1.rs:36-38 | a line has a leftmost digit exactly when it has a rightmost one, and the leftmost comes first |
| Day1Walk.FixedWalkFindsCalibration | src/advent2023/day1.rs:36-38 | on a line of two or more characters, the corrected walk yields a number exactly when the line holds a digit; the number is 10·leftmost + rightmost |
| Day1Walk.FixedWalkAt | src/advent2023/day1.rs:36-38 | given the first and the last digit of the line, the corrected walk combines them |
| Day1Walk.SumNumbers | src/advent2023/day1.rs:29-34 | the fold succeeds exactly when every line yields a number (`expect` panics otherwise) |
| Day1Walk.WalkEach | src/advent2023/day1.rs:32 | the walk applied line by line, in order |
| Day1Walk.FixedWalkEach | src/advent2023/day1.rs:32 | the corrected walk applied line by line, in order |
| Day1Walk.TrebuchetPart1 | src/advent2023/day1.rs:29-34 | part 1 has an answer exactly when the walk yields a number on every line of the input |
| Day1Walk.TrebuchetPart1Fixed | src/advent2023/day1.rs:29-34 | the same for the corrected walk |
| Day1Walk.SumOfNumbers | src/advent2023/day1.rs:29-34 | outcomes that are all numbers fold to the total of those numbers |
| Day1Walk.TrebuchetPart1Value | src/advent2023/day1.rs:29-34 | when the walk gives every line a number, part 1 is the total of those numbers |
| Day1Walk.TrebuchetPart1FixedValue | src/advent2023/day1.rs:29-34 | the same for the corrected walk |
| Day1WalkTests.WalkTwoNumbersAtEnds | src/advent2023/day1.rs:197-202 | "1aabbaa2" walks to 12 |
| Day1WalkTests.WalkTwoNumbersInMiddle | src/advent2023/day1.rs:205-210 | "abc34def" walks to 34 |
| Day1WalkTests.WalkOffCentrePanics | src/advent2023/day1.rs:213-218 | as written, "abc34defghijklmnop" panics (its test expects 34) |
| Day1WalkTests.FixedOffCentre | src/advent2023/day1.rs:213-218 | the corrected walk gives 34 |
| Day1WalkTests.WalkTwoNumbersAtStartPanics | src/advent2023/day1.rs:221-226 | as written, "56abcdefghi" panics (its test expects 56) |
| Day1WalkTests.FixedTwoNumbersAtStart | src/advent2023/day1.rs:221-226 | the corrected walk gives 56 |
| Day1WalkTests.WalkTwoNumbersAtEndMissed | src/advent2023/day1.rs:229-234 | as written, "abcdefghi78" reports no number (its test expects 78) |
| Day1WalkTests.FixedTwoNumbersAtEnd | src/advent2023/day1.rs:229-234 | the corrected walk gives 78 |
| Day1WalkTests.WalkOneNumberAtStartPanics | src/advent2023/day1.rs:237-242 | as written, "9abcdefg" panics (its test expects 99) |
| Day1WalkTests.FixedOneNumberAtStart | src/advent2023/day1.rs:237-242 | the corrected walk gives 99 |
| Day1WalkTests.WalkZeroTowardsStartPanics | src/advent2023/day1.rs:245-250 | as written, "abc0defghijklmnop" panics (its test expects 0) |
| Day1WalkTests.FixedZeroTowardsStart | src/advent2023/day1.rs:245-250 | the corrected walk gives 0 |
| Day1WalkTests.WalkOneTowardsEndMissed | src/advent2023/day1.rs:253-258 | as written, "abcdefghijklmnop1qrst" reports no number (its test expects 11) |
| Day1WalkTests.FixedOneTowardsEnd | src/advent2023/day1.rs:253-258 | the corrected walk gives 11 |
| Day1WalkTests.WalkOneAtEndMissed | src/advent2023/day1.rs:261-266 | as written, "abcdefghijklmnop1" reports no number (its test expects 11) |
| Day1WalkTests.FixedOneAtEnd | src/advent2023/day1.rs:261-266 | the corrected walk gives 11 |
| Day1WalkTests.WalkOneNumberInMiddle | src/advent2023/day1.rs:269-274 | "abcdef5fedcba" walks to 55 |
| Day1WalkTests.WalkExample1 | src/advent2023/day1.rs:277-282 | "1abc2" walks to 12 |
| Day1WalkTests.FixedExample1 | src/advent2023/day1.rs:277-282 | the corrected walk also gives 12 |
| Day1WalkTests.WalkExample2 | src/advent2023/day1.rs:285-290 | "pqr3stu8vwx" walks to 38 |
| Day1WalkTests.FixedExample2 | src/advent2023/day1.rs:285-290 | the corrected walk also gives 38 |
| Day1WalkTests.WalkExample3 | src/advent2023/day1.rs:293-298 | "a1b2c3d4e5f" walks to 15 |
| Day1WalkTests.FixedExample3 | src/advent2023/day1.rs:293-298 | the corrected walk also gives 15 |
| Day1WalkTests.WalkTreb7uchetPanics | src/advent2023/day1.rs:301-306 | as written, "treb7uchet" panics (its test expects 77) |
| Day1WalkTests.FixedTreb7uchet | src/advent2023/day1.rs:301-306 | the corrected walk gives 77 |
| Day1WalkTests.WalkSingleCharacter | src/advent2023/day1.rs:54-71 | a line of one digit reports no number, as written and corrected: the cursor meeting check fires first |
| Day1WalkTests.Part1ExampleLinesSplit | src/advent2023/day1.rs:309-318 | `lines` splits the joined example back into its four lines |
| Day1WalkTests.Part1ExamplePanics | src/advent2023/day1.rs:309-318 | as written, part 1 has no answer on the example (it panics on "treb7uchet"; the test expects 142) |
| Day1WalkTests.Part1ExampleFixed | src/advent2023/day1.rs:309-318 | with the corrected walk, part 1 of the example is 142 |
| Day2.MaxOf | src/advent2023/day2.rs:47-49 | `Iterator::max`: an element of the list that no element exceeds |
| Day2.Pick.IsValidFor | src/advent2023/day2.rs:62-74 | a pick is valid exactly when each colour's count is within the bag's limit |
| Day2.AllValidFor | src/advent2023/day2.rs:34-36 | `all`: every pick is valid for the bag |
| Day2.Game.IsValidFor | src/advent2023/day2.rs:33-37 | a game is valid exactly when every pick fits the bag in every colour; a game without picks is valid |
| Day2.Reds | src/advent2023/day2.rs:40-46 | the red counts of the picks, in pick order (the first list out of `multiunzip`) |
| Day2.Greens | src/advent2023/day2.rs:40-46 | the green counts, in pick order |
| Day2.Blues | src/advent2023/day2.rs:40-46 | the blue counts, in pick order |
| Day2.Game.MinCubesNeeded | src/advent2023/day2.rs:39-51 | each component is the count some pick shows, and no pick shows more of that colour |
| Day2.Game.Power | src/advent2023/day2.rs:21 | the product of the minimum counts never exceeds 255³ |
| Day2.Product | src/advent2023/day2.rs:21 | the u64 product of three u8 values is at most 255³, so it cannot overflow |
| Day2.ProductBound | src/advent2023/day2.rs:21 | three factors of at most 255 multiply to at most 255³ |
| Day2.MinCubesLeastBag | src/advent2023/day2.rs:33-51 | a game is valid for a bag exactly when the bag holds at least the minimum of each colour |
| Day2.ValidForOwnMinimum | src/advent2023/day2.rs:33-51 | a game is valid for its own minimum cube counts |
| Day2.ValidityMonotone | src/advent2023/day2.rs:33-37 | a game that is valid for a bag stays valid for any bag at least as large |
| Day2.SumValidIds | src/advent2023/day2.rs:9-15 | the part 1 sum is at most the sum of all ids, equal to it when every game is valid, and 0 when none is |
| Day2.SumValidIdsAppend | src/advent2023/day2.rs:9-15 | the part 1 sum over two lists of games is the sum of their answers |
| Day2.SumValidIdsMonotone | src/advent2023/day2.rs:9-15 | a larger bag never lowers the part 1 sum |
| Day2.SumPowers | src/advent2023/day2.rs:17-23 | the part 2 sum is at most 255³ per game |
| Day2.Problem.SolutionPart1 | src/advent2023/day2.rs:9-15 | get_solution_part1 is at most the sum of all ids; it equals that sum when every game is valid for the bag, and is 0 when none is |
| Day2.Problem.SolutionPart2 | src/advent2023/day2.rs:17-23 | get_solution_part2 is at most 255³ per game |
| Day2.SumPowersAppend | src/advent2023/day2.rs:17-23 | the part 2 sum over two lists of games is the sum of their answers |
| Day2Parse.ParsedCubes | src/advent2023/day2.rs:98-100 | the cube entries parsed one by one, in order |
| Day2Parse.SegmentPicks | src/advent2023/day2.rs:93-121 | each `;` segment read as a pick, in order |
| Day2Parse.Collect | src/advent2023/day2.rs:93-121 | the games' picks exist exactly when every segment reads; otherwise the error is the first failing segment's |
| Day2Parse.AddUpErrorPersists | src/advent2023/day2.rs:98-115 | once a cube entry fails, the rest of the pick does not change the error |
| Day2Parse.CollectErrorPersists | src/advent2023/day2.rs:93-121 | once a pick fails, the rest of the line does not change the error |
| Day2Parse.ReadCube | src/advent2023/day2.rs:99-114 | one cube entry: a missing or bad count, a missing or unknown colour, or u8 overflow of the running count, each as its own error; else the count added to its colour |
| Day2Parse.ReadPick | src/advent2023/day2.rs:93-121 | the inner loop over a segment's cube entries computes `PickOf` of the segment |
| Day2Parse.ReadLineIntoGame | src/advent2023/day2.rs:83-127 | the nested loops compute `ParseGame`: a missing `:` part, a missing id word, the first failing pick, or a bad u32 id, as in the source's order |
| Day2Parse.TallyMonotone | src/advent2023/day2.rs:98-115 | adding cube entries never lowers a colour's tally |
| Day2Parse.AddUpTallies | src/advent2023/day2.rs:94-115 | a pick reads exactly when every entry reads and no colour adds up past 255; then each colour is the sum of its entries |
| Day2Parse.BadCubeFailsLine | src/advent2023/day2.rs:98-113 | a line with a cube entry that does not read (missing or non-numeric count, missing or unknown colour) does not read |
| Day2Parse.GameOfLine | src/advent2023/day2.rs:83-127 | a line that reads has its second head word as its id, and one pick per `;` segment, each read from that segment |
| Day2Parse.LineGames | src/advent2023/day2.rs:78 | each line of the file read as a game, in order |
| Day2Parse.ReadFileIntoProblem | src/advent2023/day2.rs:77-81 | the file reads exactly when every line reads, giving one game per line, in order |
| Day2Parse.ReadGamesHavePicks | src/advent2023/day2.rs:77-89 | every game read from a file has at least one pick, so part 2 is defined on it |
| Day2Render.ColourName | src/advent2023/day2.rs:101-110 | each colour's word is recognised as that colour and is a single word free of separators |
| Day2Render.CubeTexts | src/advent2023/day2.rs:97 | each cube entry written out, in order |
| Day2Render.PickTexts | src/advent2023/day2.rs:89 | each pick written out, in order |
| Day2Render.GameFor | src/advent2023/day2.rs:116-126 | the game of the written id with one pick per written segment, each holding its entries' totals |
| Day2Render.DecimalWord | src/advent2023/day2.rs:100 | a number's decimal text is a single word with no `,`, `;` or `:` |
| Day2Render.ParseCubeText | src/advent2023/day2.rs:99-110 | a cube entry written as " <count> <colour>" reads back as its colour and count |
| Day2Render.TallyOfCubes | src/advent2023/day2.rs:98-115 | the tallies of read-back entries equal the counts they were written from |
| Day2Render.PickOfText | src/advent2023/day2.rs:94-120 | a written pick reads back as the pick of its entries' totals, whenever no colour passes 255 |
| Day2Render.HeadText | src/advent2023/day2.rs:88 | "Game <id>" splits into "Game" and the id's text, which parses back as the id |
| Day2Render.HeadHasNoColon | src/advent2023/day2.rs:84 | "Game <id>" has no `:` |
| Day2Render.BodyHasNoColon | src/advent2023/day2.rs:84 | the written picks have no `:` |
| Day2Render.BodyText | src/advent2023/day2.rs:89-121 | the written picks, split at `;`, read back as the game's picks |
| Day2Render.GameTextParts | src/advent2023/day2.rs:84-86 | a written game line splits at `:` into exactly its head and its body |
| Day2Render.ParseGameOfParts | src/advent2023/day2.rs:83-127 | a line whose head and body read gives the game of that id and those picks |
| Day2Render.ParseGameText | src/advent2023/day2.rs:83-127 | round trip: a game line written from an id and cube entries reads as the game they describe, whenever no colour of a pick passes 255 |
| Day2Tests.PickValidation | src/advent2023/day2.rs:134-165 | (1,1,1) fits a (1,1,1) bag, (0,0,0) fits a (0,0,0) bag, and (50,20,1) does not fit a (49,21,1) bag |
| Day2Tests.GameValidation | src/advent2023/day2.rs:167-378 | the single-pick and multi-pick games are valid or invalid for the bags their tests name |
| Day2Tests.MinCubesOneColourEach | src/advent2023/day2.rs:193-217 | picks of 5 red, 5 green and 5 blue need (5, 5, 5) |
| Day2Tests.MinCubesNoZero | src/advent2023/day2.rs:219-243 | picks (5,1,3), (4,5,4) and (4,4,5) need (5, 5, 5) |
| Day2Tests.MinCubesOf | src/advent2023/day2.rs:39-51 | the minimum is the colour counts at picks that no other pick exceeds |
| Day2Tests.SolutionPart2Examples | src/advent2023/day2.rs:245-319 | part 2 gives 125 for the one-game problem and 250 for that game twice |
| Day2Tests.SolutionPart1Examples | src/advent2023/day2.rs:380-556 | part 1 with a (1,1,1) bag gives 0, 0 and 7 for the three problems |
| Day2Tests.SolutionExample | src/advent2023/day2.rs:586-597 | for the five games of the solution test and a bag of (12, 13, 14), part 1 is 8 |
| Day2Tests.SmallCubeText | src/advent2023/day2.rs:558-584 | a one-digit cube entry is written " <digit> <colour>" |
| Day2Tests.CubeTextIs | src/advent2023/day2.rs:558-584 | the written form of a one-digit entry, character for character |
| Day2Tests.JoinThree | src/advent2023/day2.rs:558-584 | three pieces joined by a separator, written out |
| Day2Tests.FirstPickText | src/advent2023/day2.rs:558-584 | the first pick of the test line is " 3 blue, 4 red" |
| Day2Tests.SecondPickEntries | src/advent2023/day2.rs:558-584 | the entries of the second pick are " 1 red", " 2 green" and " 6 blue" |
| Day2Tests.SecondPickText | src/advent2023/day2.rs:558-584 | the second pick is " 1 red, 2 green, 6 blue" |
| Day2Tests.ThirdPickText | src/advent2023/day2.rs:558-584 | the third pick is " 2 green" |
| Day2Tests.ExamplePickTexts | src/advent2023/day2.rs:558-584 | the three picks of the test line, written out |
| Day2Tests.ExampleLineText | src/advent2023/day2.rs:558-584 | the test line is game 1 written out from its cube entries |
| Day2Tests.ExampleLinePieces | src/advent2023/day2.rs:558-584 | the test line is its head, its `:` and its picks separated by `;` |
| Day2Tests.ExampleLineFront | src/advent2023/day2.rs:558-584 | the front of the test line, up to the first `;` |
| Day2Tests.ExampleLineBack | src/advent2023/day2.rs:558-584 | the back of the test line, from the first `;` |
| Day2Tests.ExampleLineHalves | src/advent2023/day2.rs:558-584 | the test line is its front followed by its back |
| Day2Tests.FirstPickCounts | src/advent2023/day2.rs:558-584 | the first pick's entries add up to (4, 0, 3) |
| Day2Tests.SecondPickCounts | src/advent2023/day2.rs:558-584 | the second pick's entries add up to (1, 2, 6) |
| Day2Tests.ThirdPickCounts | src/advent2023/day2.rs:558-584 | the third pick's entries add up to (0, 2, 0) |
| Day2Tests.ExampleGame | src/advent2023/day2.rs:558-584 | the test line's entries describe game 1 with picks (4,0,3), (1,2,6) and (0,2,0) |
| Day2Tests.ReadLineExample | src/advent2023/day2.rs:558-584 | read_line_into_game reads the test line as game 1 with picks (4,0,3), (1,2,6) and (0,2,0) |

## Left out

- Reading the puzzle input from disk (`src/lib.rs`, `get_day_input`) and the benchmark are not modelled. The answer tests that read input files (day1.rs:321-324 and 455-459, day2.rs:599-612) are left out because their inputs are not available.
- Day2Tests.SolutionExample states the `solution` test of day 2 (day2.rs:586-597) on the five game records. The parse of the five-line literal into those records is left out, because evaluating the parser on literal text is too costly for the verifier. `Day2Render.ParseGameText` proves that lines of that form read back as their games, but no lemma applies it to these five lines.
- Day1Walk.SumNumbers, TrebuchetPart1, Day1Scan.SumLineValues and TrebuchetPart2 sum in unbounded integers. The i32 overflow of the Rust totals is not modelled; puzzle inputs stay far below it.
- Day2.SumValidIds and Day2.SumPowers sum in unbounded integers. The u32 and u64 overflow of the Rust sums is not modelled.
- Day2Parse.ReadCube: the u8 `+=` overflow is modelled as the error `CountOverflow`, as in a debug build (a panic). A release build's wrap-around is not modelled.
- Day2.Game.MinCubesNeeded requires at least one pick. The source panics on `expect` for a game without picks. `Day2Parse.ReadGamesHavePicks` shows that every game that is read has a pick.
- Day2.Reds, Greens and Blues stand for the tuple list and `itertools::multiunzip` (day2.rs:40-46). The intermediate list of tuples is not a separate member.
- Text is a `seq<char>`, and the model assumes ASCII input. Rust's `string[index..]` (day1.rs:181) takes a byte offset while `index` counts characters. So on non-ASCII lines the source may slice at the wrong place or panic; the model treats both as the same.
- The byte length `len()` in the prefilter (day1.rs:167) is modelled as the character count, which agrees on ASCII text.
- Every panic, `expect` and out-of-range index becomes an error value. The parse errors are `Day2Parse.ParseError` in the source's order; day 1 uses `Panic`, `NoNumber` and `None`. The panic message texts are not kept.
- Day1Walk.NumericCharsFromLine's error strings are collapsed: "no number" is modelled as `NoNumber`, the panics as `Panic`.
- The full example tests (day1.rs:309-318 and 392-403) are stated on the example lines joined by `\n`. The Rust literals join them the same way, but the model does not reproduce the literals' layout.

## Findings

| source | as written | input that shows it | evidently intended | confidence | as-written member | corrected member |
|---|---|---|---|---|---|---|
| src/advent2023/day1.rs:109-111 | The back cursor's digit test reads `current_char.is_ascii_digit()`, the front character, instead of `char_from_back`. The back cursor therefore records whatever character mirrors the first front digit, and the i32 parse then panics or a trailing digit is never found. | "treb7uchet": the walk panics, while its test (day1.rs:301-306) expects 77. On the example of day1.rs:309-318 part 1 panics instead of giving 142. | Test the back character, so the walk pairs the leftmost digit with the rightmost digit of the line | not executed | Day1WalkTests.WalkTreb7uchetPanics | Day1Walk.NumericCharsFromLineFixed |
