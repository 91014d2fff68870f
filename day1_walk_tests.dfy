/** The tests of get_numeric_chars_from_line and trebuchet_part_1, stated on
    the model: the ones the walk as written meets, what it does on the others,
    and what the corrected walk gives on those. */
module Day1WalkTests {
  import opened Strings
  import opened Day1Walk

  /** read_line_two_numbers_at_ends. */
  lemma WalkTwoNumbersAtEnds()
    ensures Walk("1aabbaa2") == Number(12)
  {
    var s := "1aabbaa2";
    assert IsAsciiDigit(s[0]) && IsAsciiDigit(s[7]);
    WalkAt(s, 0);
    ParseTwoDigits(s[0], s[7]);
  }
  /** read_line_two_numbers_in_middle. */
  lemma WalkTwoNumbersInMiddle()
    ensures Walk("abc34def") == Number(34)
  {
    var s := "abc34def";
    assert IsAsciiDigit(s[3]) && IsAsciiDigit(s[4]);
    assert !IsAsciiDigit(s[0]) && !IsAsciiDigit(s[1]) && !IsAsciiDigit(s[2]);
    WalkAt(s, 3);
    ParseTwoDigits(s[3], s[4]);
  }
  /** read_line_one_examples_1. */
  lemma WalkExample1()
    ensures Walk("1abc2") == Number(12)
  {
    var s := "1abc2";
    assert IsAsciiDigit(s[0]) && IsAsciiDigit(s[4]);
    WalkAt(s, 0);
    ParseTwoDigits(s[0], s[4]);
  }
  /** read_line_one_examples_2. */
  lemma WalkExample2()
    ensures Walk("pqr3stu8vwx") == Number(38)
  {
    var s := "pqr3stu8vwx";
    assert IsAsciiDigit(s[3]) && IsAsciiDigit(s[7]);
    assert !IsAsciiDigit(s[0]) && !IsAsciiDigit(s[1]) && !IsAsciiDigit(s[2]);
    WalkAt(s, 3);
    ParseTwoDigits(s[3], s[7]);
  }
  /** read_line_one_examples_3. */
  lemma WalkExample3()
    ensures Walk("a1b2c3d4e5f") == Number(15)
  {
    var s := "a1b2c3d4e5f";
    assert IsAsciiDigit(s[1]) && IsAsciiDigit(s[9]);
    assert !IsAsciiDigit(s[0]);
    WalkAt(s, 1);
    ParseTwoDigits(s[1], s[9]);
  }

  /** read_line_one_numbers_in_middle: the cursors meet on the middle digit. */
  lemma WalkOneNumberInMiddle()
    ensures Walk("abcdef5fedcba") == Number(55)
  {
    var s := "abcdef5fedcba";
    assert IsAsciiDigit(s[6]);
    assert !IsAsciiDigit(s[0]) && !IsAsciiDigit(s[1]) && !IsAsciiDigit(s[2]);
    assert !IsAsciiDigit(s[3]) && !IsAsciiDigit(s[4]) && !IsAsciiDigit(s[5]);
    MiddleDigitCopied(s);
  }

  /** read_line_one_examples_4 expects 77; the back character recorded with
      the front '7' is the 'u' opposite it, and the parse of "7u" panics. */
  lemma WalkTreb7uchetPanics()
    ensures Walk("treb7uchet") == Panic
  {
    var s := "treb7uchet";
    assert IsAsciiDigit(s[4]) && !IsAsciiDigit(s[5]);
    assert !IsAsciiDigit(s[0]) && !IsAsciiDigit(s[1]) && !IsAsciiDigit(s[2]) && !IsAsciiDigit(s[3]);
    WalkAt(s, 4);
    ParseTwoDigits(s[4], s[5]);
  }

  /** read_line_one_numbers_at_start expects 99; the 'g' opposite the '9' is
      recorded and the parse of "9g" panics. */
  lemma WalkOneNumberAtStartPanics()
    ensures Walk("9abcdefg") == Panic
  {
    var s := "9abcdefg";
    assert IsAsciiDigit(s[0]) && !IsAsciiDigit(s[7]);
    WalkAt(s, 0);
    ParseTwoDigits(s[0], s[7]);
  }

  /** read_line_two_numbers_at_end expects 78; both digits lie in the back
      half, which the front cursor never reaches, so the result is the Err. */
  lemma WalkTwoNumbersAtEndMissed()
    ensures Walk("abcdefghi78") == NoNumber
  {
    var s := "abcdefghi78";
    assert !IsAsciiDigit(s[0]) && !IsAsciiDigit(s[1]) && !IsAsciiDigit(s[2]);
    assert !IsAsciiDigit(s[3]) && !IsAsciiDigit(s[4]) && !IsAsciiDigit(s[5]);
    assert FirstDigitBelow(s, Reach(|s|)).None?;
  }

  /** A line of one digit: the cursors meet before the digit is tested. */
  lemma WalkSingleCharacter()
    ensures Walk("5") == NoNumber && FixedWalk("5") == NoNumber
  {
  }

  /** The tests that the walk as written fails, on the corrected walk. */
  lemma FixedTreb7uchet()
    ensures FixedWalk("treb7uchet") == Number(77)
  {
    var s := "treb7uchet";
    assert IsAsciiDigit(s[4]);
    assert !IsAsciiDigit(s[0]) && !IsAsciiDigit(s[1]) && !IsAsciiDigit(s[2]) && !IsAsciiDigit(s[3]);
    assert !IsAsciiDigit(s[5]) && !IsAsciiDigit(s[6]) && !IsAsciiDigit(s[7]);
    assert !IsAsciiDigit(s[8]) && !IsAsciiDigit(s[9]);
    FixedWalkAt(s, 4, 4);
  }

  lemma FixedOneNumberAtStart()
    ensures FixedWalk("9abcdefg") == Number(99)
  {
    var s := "9abcdefg";
    assert IsAsciiDigit(s[0]);
    assert !IsAsciiDigit(s[1]) && !IsAsciiDigit(s[2]) && !IsAsciiDigit(s[3]) && !IsAsciiDigit(s[4]);
    assert !IsAsciiDigit(s[5]) && !IsAsciiDigit(s[6]) && !IsAsciiDigit(s[7]);
    FixedWalkAt(s, 0, 0);
  }

  lemma FixedTwoNumbersAtEnd()
    ensures FixedWalk("abcdefghi78") == Number(78)
  {
    var s := "abcdefghi78";
    assert IsAsciiDigit(s[9]) && IsAsciiDigit(s[10]);
    assert !IsAsciiDigit(s[0]) && !IsAsciiDigit(s[1]) && !IsAsciiDigit(s[2]);
    assert !IsAsciiDigit(s[3]) && !IsAsciiDigit(s[4]) && !IsAsciiDigit(s[5]);
    assert !IsAsciiDigit(s[6]) && !IsAsciiDigit(s[7]) && !IsAsciiDigit(s[8]);
    FixedWalkAt(s, 9, 10);
  }

  lemma FixedExample1()
    ensures FixedWalk("1abc2") == Number(12)
  {
    var s := "1abc2";
    assert IsAsciiDigit(s[0]) && IsAsciiDigit(s[4]);
    FixedWalkAt(s, 0, 4);
  }

  lemma FixedExample2()
    ensures FixedWalk("pqr3stu8vwx") == Number(38)
  {
    var s := "pqr3stu8vwx";
    assert IsAsciiDigit(s[3]) && IsAsciiDigit(s[7]);
    assert !IsAsciiDigit(s[0]) && !IsAsciiDigit(s[1]) && !IsAsciiDigit(s[2]);
    assert !IsAsciiDigit(s[8]) && !IsAsciiDigit(s[9]) && !IsAsciiDigit(s[10]);
    FixedWalkAt(s, 3, 7);
  }

  lemma FixedExample3()
    ensures FixedWalk("a1b2c3d4e5f") == Number(15)
  {
    var s := "a1b2c3d4e5f";
    assert IsAsciiDigit(s[1]) && IsAsciiDigit(s[9]);
    assert !IsAsciiDigit(s[0]) && !IsAsciiDigit(s[10]);
    FixedWalkAt(s, 1, 9);
  }

  /** read_line_two_numbers_in_middleish_off_center expects 34;
      the 'm' opposite the first digit is recorded
      and the parse of "3m" panics. */
  lemma WalkOffCentrePanics()
    ensures Walk("abc34defghijklmnop") == Panic
  {
    var s := "abc34defghijklmnop";
    assert IsAsciiDigit(s[3]) && !IsAsciiDigit(s[14]);
    assert !IsAsciiDigit(s[0]) && !IsAsciiDigit(s[1]) && !IsAsciiDigit(s[2]);
    WalkAt(s, 3);
    ParseTwoDigits(s[3], s[14]);
  }

  lemma FixedOffCentre()
    ensures FixedWalk("abc34defghijklmnop") == Number(34)
  {
    var s := "abc34defghijklmnop";
    assert IsAsciiDigit(s[3]) && IsAsciiDigit(s[4]);
    assert !IsAsciiDigit(s[0]) && !IsAsciiDigit(s[1]) && !IsAsciiDigit(s[2]) && !IsAsciiDigit(s[5]);
    assert !IsAsciiDigit(s[6]) && !IsAsciiDigit(s[7]) && !IsAsciiDigit(s[8]) && !IsAsciiDigit(s[9]);
    assert !IsAsciiDigit(s[10]) && !IsAsciiDigit(s[11]) && !IsAsciiDigit(s[12]) && !IsAsciiDigit(s[13]);
    assert !IsAsciiDigit(s[14]) && !IsAsciiDigit(s[15]) && !IsAsciiDigit(s[16]) && !IsAsciiDigit(s[17]);
    FixedWalkAt(s, 3, 4);
  }

  /** read_line_two_numbers_at_start expects 56;
      the 'i' opposite the first digit is recorded
      and the parse of "5i" panics. */
  lemma WalkTwoNumbersAtStartPanics()
    ensures Walk("56abcdefghi") == Panic
  {
    var s := "56abcdefghi";
    assert IsAsciiDigit(s[0]) && !IsAsciiDigit(s[10]);
    WalkAt(s, 0);
    ParseTwoDigits(s[0], s[10]);
  }

  lemma FixedTwoNumbersAtStart()
    ensures FixedWalk("56abcdefghi") == Number(56)
  {
    var s := "56abcdefghi";
    assert IsAsciiDigit(s[0]) && IsAsciiDigit(s[1]);
    assert !IsAsciiDigit(s[2]) && !IsAsciiDigit(s[3]) && !IsAsciiDigit(s[4]) && !IsAsciiDigit(s[5]);
    assert !IsAsciiDigit(s[6]) && !IsAsciiDigit(s[7]) && !IsAsciiDigit(s[8]) && !IsAsciiDigit(s[9]);
    assert !IsAsciiDigit(s[10]);
    FixedWalkAt(s, 0, 1);
  }

  /** read_line_one_numbers_towards_start expects 0;
      the 'm' opposite the first digit is recorded
      and the parse of "0m" panics. */
  lemma WalkZeroTowardsStartPanics()
    ensures Walk("abc0defghijklmnop") == Panic
  {
    var s := "abc0defghijklmnop";
    assert IsAsciiDigit(s[3]) && !IsAsciiDigit(s[13]);
    assert !IsAsciiDigit(s[0]) && !IsAsciiDigit(s[1]) && !IsAsciiDigit(s[2]);
    WalkAt(s, 3);
    ParseTwoDigits(s[3], s[13]);
  }

  lemma FixedZeroTowardsStart()
    ensures FixedWalk("abc0defghijklmnop") == Number(0)
  {
    var s := "abc0defghijklmnop";
    assert IsAsciiDigit(s[3]) && IsAsciiDigit(s[3]);
    assert !IsAsciiDigit(s[0]) && !IsAsciiDigit(s[1]) && !IsAsciiDigit(s[2]) && !IsAsciiDigit(s[4]);
    assert !IsAsciiDigit(s[5]) && !IsAsciiDigit(s[6]) && !IsAsciiDigit(s[7]) && !IsAsciiDigit(s[8]);
    assert !IsAsciiDigit(s[9]) && !IsAsciiDigit(s[10]) && !IsAsciiDigit(s[11]) && !IsAsciiDigit(s[12]);
    assert !IsAsciiDigit(s[13]) && !IsAsciiDigit(s[14]) && !IsAsciiDigit(s[15]) && !IsAsciiDigit(s[16]);
    FixedWalkAt(s, 3, 3);
  }

  /** read_line_one_numbers_towards_end expects 11;
      the digit lies beyond the 11 positions the front
      cursor inspects, so the result is the Err. */
  lemma WalkOneTowardsEndMissed()
    ensures Walk("abcdefghijklmnop1qrst") == NoNumber
  {
    var s := "abcdefghijklmnop1qrst";
    assert !IsAsciiDigit(s[0]) && !IsAsciiDigit(s[1]) && !IsAsciiDigit(s[2]) && !IsAsciiDigit(s[3]);
    assert !IsAsciiDigit(s[4]) && !IsAsciiDigit(s[5]) && !IsAsciiDigit(s[6]) && !IsAsciiDigit(s[7]);
    assert !IsAsciiDigit(s[8]) && !IsAsciiDigit(s[9]) && !IsAsciiDigit(s[10]);
    assert FirstDigitBelow(s, Reach(|s|)).None?;
  }

  lemma FixedOneTowardsEnd()
    ensures FixedWalk("abcdefghijklmnop1qrst") == Number(11)
  {
    var s := "abcdefghijklmnop1qrst";
    assert IsAsciiDigit(s[16]) && IsAsciiDigit(s[16]);
    assert !IsAsciiDigit(s[0]) && !IsAsciiDigit(s[1]) && !IsAsciiDigit(s[2]) && !IsAsciiDigit(s[3]);
    assert !IsAsciiDigit(s[4]) && !IsAsciiDigit(s[5]) && !IsAsciiDigit(s[6]) && !IsAsciiDigit(s[7]);
    assert !IsAsciiDigit(s[8]) && !IsAsciiDigit(s[9]) && !IsAsciiDigit(s[10]) && !IsAsciiDigit(s[11]);
    assert !IsAsciiDigit(s[12]) && !IsAsciiDigit(s[13]) && !IsAsciiDigit(s[14]) && !IsAsciiDigit(s[15]);
    assert !IsAsciiDigit(s[17]) && !IsAsciiDigit(s[18]) && !IsAsciiDigit(s[19]) && !IsAsciiDigit(s[20]);
    FixedWalkAt(s, 16, 16);
  }

  /** read_line_one_numbers_at_end expects 11;
      the digit lies beyond the 9 positions the front
      cursor inspects, so the result is the Err. */
  lemma WalkOneAtEndMissed()
    ensures Walk("abcdefghijklmnop1") == NoNumber
  {
    var s := "abcdefghijklmnop1";
    assert !IsAsciiDigit(s[0]) && !IsAsciiDigit(s[1]) && !IsAsciiDigit(s[2]) && !IsAsciiDigit(s[3]);
    assert !IsAsciiDigit(s[4]) && !IsAsciiDigit(s[5]) && !IsAsciiDigit(s[6]) && !IsAsciiDigit(s[7]);
    assert !IsAsciiDigit(s[8]);
    assert FirstDigitBelow(s, Reach(|s|)).None?;
  }

  lemma FixedOneAtEnd()
    ensures FixedWalk("abcdefghijklmnop1") == Number(11)
  {
    var s := "abcdefghijklmnop1";
    assert IsAsciiDigit(s[16]) && IsAsciiDigit(s[16]);
    assert !IsAsciiDigit(s[0]) && !IsAsciiDigit(s[1]) && !IsAsciiDigit(s[2]) && !IsAsciiDigit(s[3]);
    assert !IsAsciiDigit(s[4]) && !IsAsciiDigit(s[5]) && !IsAsciiDigit(s[6]) && !IsAsciiDigit(s[7]);
    assert !IsAsciiDigit(s[8]) && !IsAsciiDigit(s[9]) && !IsAsciiDigit(s[10]) && !IsAsciiDigit(s[11]);
    assert !IsAsciiDigit(s[12]) && !IsAsciiDigit(s[13]) && !IsAsciiDigit(s[14]) && !IsAsciiDigit(s[15]);
    FixedWalkAt(s, 16, 16);
  }

  /** The four lines of the trebuchet_example test. */
  const Part1ExampleLines: seq<string> := ["1abc2", "pqr3stu8vwx", "a1b2c3d4e5f", "treb7uchet"]

  lemma Part1ExampleLinesSplit()
    ensures Lines(Join(Part1ExampleLines, '\n')) == Part1ExampleLines
  {
    var ls := Part1ExampleLines;
    forall i | 0 <= i < |ls| ensures IsLine(ls[i]) {
      assert ls[i] in ls;
    }
    LinesOfJoin(ls);
  }

  /** trebuchet_example expects 142: the walk as written panics on its
      fourth line. */
  lemma Part1ExamplePanics()
    ensures TrebuchetPart1(Join(Part1ExampleLines, '\n')) == None
  {
    Part1ExampleLinesSplit();
    WalkTreb7uchetPanics();
    assert WalkEach(Part1ExampleLines)[3] == Panic;
  }

  /** The corrected walk gives the 142 the test expects. */
  lemma Part1ExampleFixed()
    ensures TrebuchetPart1Fixed(Join(Part1ExampleLines, '\n')) == Some(142)
  {
    Part1ExampleLinesSplit();
    FixedExample1();
    FixedExample2();
    FixedExample3();
    FixedTreb7uchet();
    var os := FixedWalkEach(Part1ExampleLines);
    assert os == [Number(12), Number(38), Number(15), Number(77)];
    assert SumNumbers(os[3..]) == Some(77);
    assert SumNumbers(os[2..]) == Some(92);
    assert SumNumbers(os[1..]) == Some(130);
  }
}
