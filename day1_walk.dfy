/** Day 1, part 1: the dual-cursor walk of get_numeric_chars_from_line, as
    written, and the walk with the back test it evidently intended. */
module Day1Walk {
  import opened Strings

  /** How a call of get_numeric_chars_from_line ends: Ok with the parsed
      i32, the Err "no number found", or a panic (the usize underflow of
      line.len() - 1 on an empty line, an expect on a missing character, or
      the parse of the two collected characters). */
  datatype Outcome = Number(value: int) | NoNumber | Panic

  const I32Min: int := -0x8000_0000
  const I32Max: nat := 0x7fff_ffff

  /** The number of positions the front cursor inspects before the cursors
      meet: it covers the front half of the line, the middle included, so
      that the front half and the equally long back half cover the line. */
  function Reach(n: nat): (k: nat)
    ensures k <= n
    ensures n >= 2 ==> k + k == n || k + k == n + 1
    ensures n <= 1 ==> k == 0
  {
    if n <= 1 then 0 else (n + 1) / 2
  }

  /** The leftmost position below k that holds an ASCII digit. */
  function FirstDigitBelow(s: string, k: nat): (r: Option<nat>)
    requires k <= |s|
    ensures r.None? <==> forall q :: 0 <= q < k ==> !IsAsciiDigit(s[q])
    ensures r.Some? ==> r.value < k && IsAsciiDigit(s[r.value])
    ensures r.Some? ==> forall q :: 0 <= q < r.value ==> !IsAsciiDigit(s[q])
  {
    if k == 0 then None
    else match FirstDigitBelow(s, k - 1)
      case Some(p) => Some(p)
      case None => if IsAsciiDigit(s[k - 1]) then Some(k - 1) else None
  }

  /** The rightmost position at or above k that holds an ASCII digit. */
  function LastDigitFrom(s: string, k: nat): (r: Option<nat>)
    requires k <= |s|
    decreases |s| - k
    ensures r.None? <==> forall q :: k <= q < |s| ==> !IsAsciiDigit(s[q])
    ensures r.Some? ==> k <= r.value < |s| && IsAsciiDigit(s[r.value])
    ensures r.Some? ==> forall q :: r.value < q < |s| ==> !IsAsciiDigit(s[q])
  {
    if k == |s| then None
    else match LastDigitFrom(s, k + 1)
      case Some(p) => Some(p)
      case None => if IsAsciiDigit(s[k]) then Some(k) else None
  }

  /** The leftmost ASCII digit of the line. */
  function LeftmostDigit(s: string): Option<nat> {
    FirstDigitBelow(s, |s|)
  }

  /** The rightmost ASCII digit of the line. */
  function RightmostDigit(s: string): Option<nat> {
    LastDigitFrom(s, 0)
  }

  /** The end of the walk: the two collected characters pushed into a
      String and parsed as an i32, which panics when the text is no number. */
  function Combine(front: char, back: char): Outcome {
    match ParseSigned([front, back], I32Min, I32Max)
    case Some(v) => Number(v)
    case None => Panic
  }

  /** What get_numeric_chars_from_line does, as a function of the line: the
      leftmost digit among the positions the front cursor reaches is paired
      with the character at the mirrored position, digit or not. */
  function Walk(line: string): Outcome {
    if |line| == 0 then Panic
    else match FirstDigitBelow(line, Reach(|line|))
      case None => NoNumber
      case Some(p) => Combine(line[p], line[|line| - 1 - p])
  }

  /** What the walk does when its cursors meet: a character recorded on one
      side only is copied to the other (situations 1 and 2), and neither
      tells that nothing was recorded (situation 3). */
  method Meet(first: Option<char>, last: Option<char>)
    returns (first': Option<char>, last': Option<char>, neither: bool)
    ensures neither <==> first.None? && last.None?
    ensures !neither ==> first'.Some? && last'.Some?
    ensures first.Some? ==> first' == first
    ensures last.Some? ==> last' == last
    ensures first.None? && !neither ==> first' == last
    ensures last.None? && !neither ==> last' == first
  {
    first', last', neither := first, last, false;
    if first.None? && last.Some? {
      first' := last;
    } else if first.Some? && last.None? {
      last' := first;
    } else if first.None? && last.None? {
      neither := true;
    }
  }

  /** get_numeric_chars_from_line: a front and a back cursor walk towards
      each other; the front stops at a digit, and the back character is
      recorded on the iteration whose FRONT character is a digit. When the
      cursors meet, a character recorded on one side only is copied to the
      other, and with none recorded the result is NoNumber. */
  method NumericCharsFromLine(line: string) returns (r: Outcome)
    ensures r == Walk(line)
  {
    if |line| == 0 {
      // line.len() - 1 underflows
      return Panic;
    }
    var n := |line|;
    var first: Option<char> := None;
    var last: Option<char> := None;
    var front := 0;
    var back := n - 1;
    var index := 0;
    while index < n
      invariant first.None? && last.None?
      invariant index == 0 ==> front == 0 && back == n - 1
      invariant index > 0 ==> front == index - 1 && back == n - index && 2 * index <= n
      invariant forall q :: 0 <= q < index ==> !IsAsciiDigit(line[q])
      decreases n - index
    {
      var current := line[index];
      if first.None? {
        front := index;
      }
      if front >= back {
        var neither;
        first, last, neither := Meet(first, last);
        if neither {
          return NoNumber;
        }
        break;
      }
      if first.None? && IsAsciiDigit(current) {
        first := Some(current);
      }
      if last.None? {
        back := (n - 1) - index;
      }
      var fromBack := line[back];
      if front >= back {
        var neither;
        first, last, neither := Meet(first, last);
        if neither {
          return NoNumber;
        }
        break;
      }
      if last.None? && IsAsciiDigit(current) {
        last := Some(fromBack);
      }
      if first.Some? && last.Some? {
        break;
      }
      index := index + 1;
    }
    if first.None? || last.None? {
      return Panic;
    }
    r := Combine(first.value, last.value);
  }

  /** Parsing a digit followed by a second character succeeds exactly when
      the second is a digit too, and gives the two-digit number. */
  lemma ParseTwoDigits(a: char, b: char)
    requires IsAsciiDigit(a)
    ensures Combine(a, b).Number? <==> IsAsciiDigit(b)
    ensures IsAsciiDigit(b) ==> Combine(a, b) == Number(10 * DigitValue(a) + DigitValue(b))
  {
    var t := [a, b];
    assert t[0] == a && t[1] == b;
    if IsAsciiDigit(b) {
      assert AllDigits(t);
      assert t[..1] == [a];
      assert [a][..0] == [];
      assert DecimalValue([a]) == DigitValue(a);
      assert DecimalValue(t) == 10 * DecimalValue([a]) + DigitValue(b);
      assert DecimalValue(t) == 10 * DigitValue(a) + DigitValue(b);
    } else {
      assert !AllDigits(t);
    }
  }

  /** The leftmost digit below k is the leftmost digit of the line, when that
      one lies below k. */
  lemma FirstDigitBelowLeftmost(s: string, k: nat)
    requires k <= |s|
    ensures FirstDigitBelow(s, k) ==
              if LeftmostDigit(s).Some? && LeftmostDigit(s).value < k then LeftmostDigit(s) else None
  {
  }

  /** The walk ends in Ok exactly when the leftmost digit of the line lies in
      the half the front cursor reaches and the character at its mirrored
      position is a digit as well; the value is then those two digits. */
  lemma WalkNumberIff(line: string)
    ensures Walk(line).Number? <==>
              LeftmostDigit(line).Some? && LeftmostDigit(line).value < Reach(|line|) &&
              IsAsciiDigit(line[|line| - 1 - LeftmostDigit(line).value])
    ensures Walk(line).Number? ==>
              var p := LeftmostDigit(line).value;
              Walk(line).value == 10 * DigitValue(line[p]) + DigitValue(line[|line| - 1 - p])
  {
    FirstDigitBelowLeftmost(line, Reach(|line|));
    if |line| > 0 && LeftmostDigit(line).Some? && LeftmostDigit(line).value < Reach(|line|) {
      var p := LeftmostDigit(line).value;
      ParseTwoDigits(line[p], line[|line| - 1 - p]);
    }
  }

  /** The walk ends in the Err exactly when the line is not empty and the
      cursors meet before the front one sees a digit. */
  lemma WalkNoNumberIff(line: string)
    ensures Walk(line) == NoNumber <==>
              |line| > 0 && (LeftmostDigit(line).None? || LeftmostDigit(line).value >= Reach(|line|))
  {
    FirstDigitBelowLeftmost(line, Reach(|line|));
    if |line| > 0 && LeftmostDigit(line).Some? && LeftmostDigit(line).value < Reach(|line|) {
      var p := LeftmostDigit(line).value;
      ParseTwoDigits(line[p], line[|line| - 1 - p]);
    }
  }

  /** The walk panics exactly on an empty line or when the character mirrored
      to the front digit is not a digit. */
  lemma WalkPanicIff(line: string)
    ensures Walk(line) == Panic <==>
              |line| == 0 ||
              (LeftmostDigit(line).Some? && LeftmostDigit(line).value < Reach(|line|) &&
               !IsAsciiDigit(line[|line| - 1 - LeftmostDigit(line).value]))
  {
    WalkNumberIff(line);
    WalkNoNumberIff(line);
  }

  /** When the only digit the front cursor reaches is the middle character of
      an odd-length line of three or more characters, the cursors meet on it
      and it is copied to the back side, giving 11 times its value. (On a
      line of one character the cursors meet before any test, so "5" gives
      NoNumber.) */
  lemma MiddleDigitCopied(line: string)
    requires |line| % 2 == 1 && |line| >= 3
    requires IsAsciiDigit(line[|line| / 2])
    requires forall q :: 0 <= q < |line| / 2 ==> !IsAsciiDigit(line[q])
    ensures Walk(line) == Number(11 * DigitValue(line[|line| / 2]))
  {
    var m := |line| / 2;
    assert FirstDigitBelow(line, Reach(|line|)) == Some(m);
    assert |line| - 1 - m == m;
    ParseTwoDigits(line[m], line[m]);
  }

  /** The walk pairs the front digit at p with its mirror when p is the
      leftmost digit and within the front cursor's reach. */
  lemma WalkAt(line: string, p: nat)
    requires p < Reach(|line|) && IsAsciiDigit(line[p])
    requires forall q :: 0 <= q < p ==> !IsAsciiDigit(line[q])
    ensures Walk(line) == Combine(line[p], line[|line| - 1 - p])
  {
    assert FirstDigitBelow(line, Reach(|line|)) == Some(p);
  }

  /** The calibration value the walk is meant to find (its doc comment and
      its tests): the leftmost and the rightmost digit of the line as a
      two-digit number, the one digit used twice when there is only one. */
  function CalibrationValue(line: string): Option<nat> {
    match (LeftmostDigit(line), RightmostDigit(line))
    case (Some(p), Some(q)) => Some(10 * DigitValue(line[p]) + DigitValue(line[q]))
    case _ => None
  }

  /** What the walk does once the back test at day1.rs:109 looks at the
      character under the back cursor: the calibration value, except that
      a line of one character still meets its cursors before any test. */
  function FixedWalk(line: string): Outcome {
    if |line| == 0 then Panic
    else if |line| == 1 then NoNumber
    else match CalibrationValue(line)
      case Some(v) => Number(v)
      case None => NoNumber
  }

  /** A line has a leftmost digit exactly when it has a rightmost one, and
      the leftmost comes first. */
  lemma LeftmostRightmost(line: string)
    ensures LeftmostDigit(line).Some? <==> RightmostDigit(line).Some?
    ensures LeftmostDigit(line).Some? ==> LeftmostDigit(line).value <= RightmostDigit(line).value
  {
  }

  /** get_numeric_chars_from_line with the back test at day1.rs:109 applied
      to the character under the back cursor, as the comments around it
      describe: each cursor stops at the first digit it meets. */
  method NumericCharsFromLineFixed(line: string) returns (r: Outcome)
    ensures r == FixedWalk(line)
  {
    if |line| == 0 {
      return Panic;
    }
    var n := |line|;
    var first: Option<char> := None;
    var last: Option<char> := None;
    var front := 0;
    var back := n - 1;
    var index := 0;
    while index < n
      invariant index <= n && 0 <= front && 0 <= back < n
      invariant index == 0 ==> first.None? && last.None?
      invariant first.None? ==> front == (if index == 0 then 0 else index - 1)
      invariant first.None? ==> forall q :: 0 <= q < index ==> !IsAsciiDigit(line[q])
      invariant first.Some? ==> front < index && IsAsciiDigit(line[front]) && first.value == line[front]
      invariant first.Some? ==> forall q :: 0 <= q < front ==> !IsAsciiDigit(line[q])
      invariant last.None? ==> back == (if index == 0 then n - 1 else n - index)
      invariant last.None? && index > 0 ==> forall q :: back <= q < n ==> !IsAsciiDigit(line[q])
      invariant last.Some? ==> IsAsciiDigit(line[back]) && last.value == line[back]
      invariant last.Some? ==> forall q :: back < q < n ==> !IsAsciiDigit(line[q])
      invariant !(first.Some? && last.Some?)
      invariant index > 0 ==> front < back
      decreases n - index
    {
      var current := line[index];
      if first.None? {
        front := index;
      }
      if front >= back {
        var neither;
        first, last, neither := Meet(first, last);
        if neither {
          return NoNumber;
        }
        break;
      }
      if first.None? && IsAsciiDigit(current) {
        first := Some(current);
      }
      if last.None? {
        back := (n - 1) - index;
      }
      var fromBack := line[back];
      if front >= back {
        var neither;
        first, last, neither := Meet(first, last);
        if neither {
          return NoNumber;
        }
        break;
      }
      if last.None? && IsAsciiDigit(fromBack) {
        last := Some(fromBack);
      }
      if first.Some? && last.Some? {
        break;
      }
      index := index + 1;
    }
    if first.None? || last.None? {
      return Panic;
    }
    assert n >= 2;
    assert LeftmostDigit(line) == Some(front) && first.value == line[front];
    assert RightmostDigit(line) == Some(if back < front then front else back);
    assert last.value == line[if back < front then front else back];
    ParseTwoDigits(first.value, last.value);
    r := Combine(first.value, last.value);
  }

  /** The fold of trebuchet_part_1: the sum of the values, or None once a
      line's walk is not an Ok (the expect panics). */
  function SumNumbers(outcomes: seq<Outcome>): (r: Option<int>)
    ensures r.Some? <==> forall i :: 0 <= i < |outcomes| ==> outcomes[i].Number?
  {
    if |outcomes| == 0 then Some(0)
    else match (outcomes[0], SumNumbers(outcomes[1..]))
      case (Number(v), Some(t)) => Some(v + t)
      case _ => None
  }

  /** The map of trebuchet_part_1: the walk of each line, in order. */
  function WalkEach(lines: seq<string>): (outcomes: seq<Outcome>)
    ensures |outcomes| == |lines|
    ensures forall i :: 0 <= i < |lines| ==> outcomes[i] == Walk(lines[i])
  {
    if |lines| == 0 then [] else [Walk(lines[0])] + WalkEach(lines[1..])
  }

  /** The same map over the walk with the corrected back test. */
  function FixedWalkEach(lines: seq<string>): (outcomes: seq<Outcome>)
    ensures |outcomes| == |lines|
    ensures forall i :: 0 <= i < |lines| ==> outcomes[i] == FixedWalk(lines[i])
  {
    if |lines| == 0 then [] else [FixedWalk(lines[0])] + FixedWalkEach(lines[1..])
  }

  /** trebuchet_part_1: the walk applied to each line, summed. */
  function TrebuchetPart1(input: string): (r: Option<int>)
    ensures r.Some? <==> forall i :: 0 <= i < |Lines(input)| ==> Walk(Lines(input)[i]).Number?
  {
    SumNumbers(WalkEach(Lines(input)))
  }

  /** trebuchet_part_1 over the walk with the corrected back test. */
  function TrebuchetPart1Fixed(input: string): (r: Option<int>)
    ensures r.Some? <==> forall i :: 0 <= i < |Lines(input)| ==> FixedWalk(Lines(input)[i]).Number?
  {
    SumNumbers(FixedWalkEach(Lines(input)))
  }

  /** The sum of a sequence of integers. */
  function IntTotal(vs: seq<int>): int {
    if |vs| == 0 then 0 else vs[0] + IntTotal(vs[1..])
  }

  /** Outcomes that are all numbers sum to the total of those numbers. */
  lemma {:induction false} SumOfNumbers(outcomes: seq<Outcome>, vs: seq<int>)
    requires |outcomes| == |vs|
    requires forall i :: 0 <= i < |outcomes| ==> outcomes[i] == Number(vs[i])
    ensures SumNumbers(outcomes) == Some(IntTotal(vs))
  {
    if |outcomes| > 0 {
      SumOfNumbers(outcomes[1..], vs[1..]);
    }
  }

  /** Part 1 is the total of the numbers the walk gives the lines. */
  lemma TrebuchetPart1Value(input: string, vs: seq<int>)
    requires |vs| == |Lines(input)|
    requires forall i :: 0 <= i < |vs| ==> Walk(Lines(input)[i]) == Number(vs[i])
    ensures TrebuchetPart1(input) == Some(IntTotal(vs))
  {
    SumOfNumbers(WalkEach(Lines(input)), vs);
  }

  /** The same for the walk with the corrected back test. */
  lemma TrebuchetPart1FixedValue(input: string, vs: seq<int>)
    requires |vs| == |Lines(input)|
    requires forall i :: 0 <= i < |vs| ==> FixedWalk(Lines(input)[i]) == Number(vs[i])
    ensures TrebuchetPart1Fixed(input) == Some(IntTotal(vs))
  {
    SumOfNumbers(FixedWalkEach(Lines(input)), vs);
  }

  /** With the corrected back test, a line of two or more characters gives
      its calibration value, and NoNumber exactly when it holds no digit. */
  lemma FixedWalkFindsCalibration(line: string)
    requires |line| >= 2
    ensures FixedWalk(line).Number? <==> exists q :: 0 <= q < |line| && IsAsciiDigit(line[q])
    ensures FixedWalk(line).Number? ==>
              FixedWalk(line).value == 10 * DigitValue(line[LeftmostDigit(line).value]) +
                                       DigitValue(line[RightmostDigit(line).value])
  {
    LeftmostRightmost(line);
    if LeftmostDigit(line).Some? {
      var p := LeftmostDigit(line).value;
      assert IsAsciiDigit(line[p]);
    }
  }

  /** The corrected walk gives the digits at p and q when p is the leftmost
      and q the rightmost digit of a line of two or more characters. */
  lemma FixedWalkAt(line: string, p: nat, q: nat)
    requires |line| >= 2 && p < |line| && q < |line|
    requires IsAsciiDigit(line[p]) && forall k :: 0 <= k < p ==> !IsAsciiDigit(line[k])
    requires IsAsciiDigit(line[q]) && forall k :: q < k < |line| ==> !IsAsciiDigit(line[k])
    ensures FixedWalk(line) == Number(10 * DigitValue(line[p]) + DigitValue(line[q]))
  {
    assert LeftmostDigit(line) == Some(p);
    assert RightmostDigit(line) == Some(q);
  }
}
