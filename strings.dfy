/** Models of the Rust standard-library string operations the solvers use.
    Text is ASCII and is represented as a seq<char>, so a byte index and a
    char index coincide. */
module Strings {

  datatype Option<+T> = None | Some(value: T)

  /** char::is_ascii_digit, also the range test ('0'..='9').contains(c). */
  predicate IsAsciiDigit(c: char) {
    '0' <= c <= '9'
  }

  /** char::to_digit(10) on an ASCII digit. */
  function DigitValue(c: char): (d: nat)
    requires IsAsciiDigit(c)
    ensures d < 10
  {
    c as int - '0' as int
  }

  /** The ASCII digit that stands for d; the inverse of DigitValue. */
  function DigitChar(d: nat): (c: char)
    requires d < 10
    ensures IsAsciiDigit(c) && DigitValue(c) == d
  {
    ('0' as int + d) as char
  }

  lemma DigitCharOfValue(c: char)
    requires IsAsciiDigit(c)
    ensures DigitChar(DigitValue(c)) == c
  {
  }

  /** s.chars().rev().collect(): the characters of s in reverse order. */
  function Reverse(s: string): (r: string)
    ensures |r| == |s|
    ensures forall i :: 0 <= i < |s| ==> r[i] == s[|s| - 1 - i]
  {
    seq(|s|, i requires 0 <= i < |s| => s[|s| - 1 - i])
  }

  lemma ReverseInvolutive(s: string)
    ensures Reverse(Reverse(s)) == s
  {
    assert forall i :: 0 <= i < |s| ==> Reverse(Reverse(s))[i] == s[i];
  }

  /** Dropping the first p characters of a reversed string reverses the
      prefix that keeps all but the last p characters. */
  lemma ReverseDrop(s: string, p: nat)
    requires p <= |s|
    ensures Reverse(s)[p..] == Reverse(s[..|s| - p])
  {
    var r, q := Reverse(s), Reverse(s[..|s| - p]);
    assert |r[p..]| == |q|;
    forall i | 0 <= i < |s| - p ensures r[p..][i] == q[i] {
      assert r[p..][i] == r[p + i];
      assert r[p + i] == s[|s| - 1 - (p + i)];
      assert q[i] == s[..|s| - p][|s| - p - 1 - i];
    }
    assert r[p..] == q;
  }

  /** str::starts_with: w is a prefix of t. */
  predicate StartsWith(t: string, w: string) {
    |w| <= |t| && t[..|w|] == w
  }

  /** str::ends_with: w is a suffix of t. */
  predicate EndsWith(t: string, w: string) {
    |w| <= |t| && t[|t| - |w|..] == w
  }

  /** Reversing both strings turns a suffix into a prefix, and back. */
  lemma StartsWithReverse(t: string, w: string)
    ensures StartsWith(Reverse(t), Reverse(w)) <==> EndsWith(t, w)
  {
    if |w| <= |t| {
      var rt, rw := Reverse(t), Reverse(w);
      if EndsWith(t, w) {
        assert forall i :: 0 <= i < |w| ==> rt[..|w|][i] == rw[i] by {
          forall i | 0 <= i < |w| ensures rt[..|w|][i] == rw[i] {
            assert t[|t| - |w|..][|w| - 1 - i] == w[|w| - 1 - i];
          }
        }
        assert rt[..|w|] == rw;
      }
      if StartsWith(rt, rw) {
        assert forall i :: 0 <= i < |w| ==> t[|t| - |w|..][i] == w[i] by {
          forall i | 0 <= i < |w| ensures t[|t| - |w|..][i] == w[i] {
            assert rt[..|w|][|w| - 1 - i] == rw[|w| - 1 - i];
          }
        }
        assert t[|t| - |w|..] == w;
      }
    }
  }

  /** One of two words that are both prefixes of t is a prefix of the other. */
  lemma CommonPrefix(t: string, u: string, w: string)
    requires StartsWith(t, u) && StartsWith(t, w) && |u| <= |w|
    ensures StartsWith(w, u)
  {
    assert w[..|u|] == t[..|w|][..|u|] == t[..|u|];
  }

  /** Every character of s is an ASCII digit. */
  predicate AllDigits(s: string) {
    forall i :: 0 <= i < |s| ==> IsAsciiDigit(s[i])
  }

  /** The number written by the decimal digits s, most significant first. */
  function DecimalValue(s: string): nat
    requires AllDigits(s)
  {
    if |s| == 0 then 0 else 10 * DecimalValue(s[..|s| - 1]) + DigitValue(s[|s| - 1])
  }

  /** str::parse for an unsigned integer type whose largest value is max:
      an optional '+', then at least one ASCII digit, and no overflow. */
  function ParseUnsigned(s: string, max: nat): (r: Option<nat>)
    ensures r.Some? ==> r.value <= max
  {
    var digits := if |s| > 0 && s[0] == '+' then s[1..] else s;
    if |digits| > 0 && AllDigits(digits) && DecimalValue(digits) <= max
    then Some(DecimalValue(digits)) else None
  }

  /** str::parse for a signed integer type with range min..=max: a leading
      '-' negates the digits that follow it; otherwise as ParseUnsigned. */
  function ParseSigned(s: string, min: int, max: nat): (r: Option<int>)
    requires min <= 0
    ensures r.Some? ==> min <= r.value <= max
  {
    if |s| > 0 && s[0] == '-' then
      var digits := s[1..];
      if |digits| > 0 && AllDigits(digits) && min + DecimalValue(digits) <= 0
      then Some(0 - DecimalValue(digits)) else None
    else match ParseUnsigned(s, max)
      case Some(v) => Some(v)
      case None => None
  }

  /** The decimal text of v as Display writes it: no sign, no leading zero. */
  function DecimalString(v: nat): (s: string)
    ensures |s| >= 1 && AllDigits(s) && DecimalValue(s) == v
    ensures s[0] == '0' ==> v == 0
  {
    if v < 10 then [DigitChar(v)]
    else
      var t := DecimalString(v / 10);
      var s := t + [DigitChar(v % 10)];
      assert s[..|s| - 1] == t;
      s
  }

  /** Parsing the decimal text of a value in range gives the value back. */
  lemma ParseDecimalString(v: nat, max: nat)
    requires v <= max
    ensures ParseUnsigned(DecimalString(v), max) == Some(v)
  {
  }

  /** u8::is_ascii_whitespace: space, tab, line feed, form feed, carriage
      return. */
  predicate IsAsciiWhitespace(c: char) {
    c == ' ' || c == '\t' || c == '\n' || c == '\U{000C}' || c == '\r'
  }

  /** The longest prefix of s without ASCII whitespace. */
  function WordPrefix(s: string): (w: string)
    ensures |w| <= |s| && w == s[..|w|]
    ensures forall i :: 0 <= i < |w| ==> !IsAsciiWhitespace(w[i])
    ensures |w| < |s| ==> IsAsciiWhitespace(s[|w|])
  {
    if |s| == 0 || IsAsciiWhitespace(s[0]) then ""
    else
      var w := [s[0]] + WordPrefix(s[1..]);
      assert s[..|w|] == [s[0]] + s[1..][..|w| - 1];
      w
  }

  /** str::split_ascii_whitespace: the maximal runs of characters that are
      not ASCII whitespace, in order. */
  function SplitAsciiWhitespace(s: string): (words: seq<string>)
    ensures forall i :: 0 <= i < |words| ==> |words[i]| > 0
    ensures forall i, j :: 0 <= i < |words| && 0 <= j < |words[i]| ==> !IsAsciiWhitespace(words[i][j])
    decreases |s|
  {
    if |s| == 0 then []
    else if IsAsciiWhitespace(s[0]) then SplitAsciiWhitespace(s[1..])
    else
      var w := WordPrefix(s);
      [w] + SplitAsciiWhitespace(s[|w|..])
  }

  /** The words, each preceded by one space. */
  function Unwords(words: seq<string>): string {
    if |words| == 0 then "" else " " + words[0] + Unwords(words[1..])
  }

  /** A text with no ASCII whitespace. */
  predicate IsWord(w: string) {
    |w| > 0 && forall i :: 0 <= i < |w| ==> !IsAsciiWhitespace(w[i])
  }

  /** A word followed by nothing or by whitespace is where the next word
      ends. */
  lemma {:induction false} WordPrefixOfWord(w: string, tail: string)
    requires IsWord(w)
    requires |tail| == 0 || IsAsciiWhitespace(tail[0])
    ensures WordPrefix(w + tail) == w
    decreases |w|
  {
    var t := w + tail;
    assert t[0] == w[0];
    if |w| > 1 {
      assert t[1..] == w[1..] + tail;
      WordPrefixOfWord(w[1..], tail);
      assert [w[0]] + w[1..] == w;
    } else {
      assert t[1..] == tail;
    }
  }

  /** Splitting at whitespace gives back the words the text was made of. */
  lemma {:induction false} SplitUnwords(words: seq<string>)
    requires forall i :: 0 <= i < |words| ==> IsWord(words[i])
    ensures SplitAsciiWhitespace(Unwords(words)) == words
    decreases |words|, 0
  {
    if |words| > 0 {
      var w, rest := words[0], Unwords(words[1..]);
      var t := w + rest;
      assert Unwords(words) == [' '] + t;
      assert ([' '] + t)[1..] == t;
      SplitWordAndUnwords(w, words[1..]);
      assert [w] + words[1..] == words;
    }
  }

  /** A word followed by more words, each after a space, splits into all of
      them. */
  lemma {:induction false} SplitWordAndUnwords(w: string, words: seq<string>)
    requires IsWord(w)
    requires forall i :: 0 <= i < |words| ==> IsWord(words[i])
    ensures SplitAsciiWhitespace(w + Unwords(words)) == [w] + words
    decreases |words|, 1
  {
    var rest := Unwords(words);
    assert |rest| == 0 || rest[0] == ' ';
    WordPrefixOfWord(w, rest);
    assert (w + rest)[0] == w[0];
    assert (w + rest)[|w|..] == rest;
    SplitUnwords(words);
  }

  /** A character other than a space that is in none of the words is not in
      the text made of them. */
  lemma {:induction false} UnwordsExcludes(words: seq<string>, c: char)
    requires c != ' '
    requires forall i :: 0 <= i < |words| ==> c !in words[i]
    ensures c !in Unwords(words)
  {
    if |words| > 0 {
      UnwordsExcludes(words[1..], c);
    }
  }

  /** A character in none of the pieces, other than the separator, is not in
      the joined text. */
  lemma {:induction false} JoinExcludes(parts: seq<string>, sep: char, c: char)
    requires |parts| >= 1 && c != sep
    requires forall i :: 0 <= i < |parts| ==> c !in parts[i]
    ensures c !in Join(parts, sep)
  {
    if |parts| > 1 {
      JoinExcludes(parts[1..], sep, c);
    }
  }

  /** str::split(sep): the pieces of s between the occurrences of sep, in
      order; there is always at least one piece. */
  function Split(s: string, sep: char): (parts: seq<string>)
    ensures |parts| >= 1
    ensures forall i :: 0 <= i < |parts| ==> sep !in parts[i]
  {
    if |s| == 0 then [""]
    else
      var rest := Split(s[1..], sep);
      if s[0] == sep then [""] + rest
      else [[s[0]] + rest[0]] + rest[1..]
  }

  /** The pieces glued back together with sep between them. */
  function Join(parts: seq<string>, sep: char): string
    requires |parts| >= 1
  {
    if |parts| == 1 then parts[0] else parts[0] + [sep] + Join(parts[1..], sep)
  }

  /** Splitting loses nothing: joining the pieces gives back s. */
  lemma {:induction false} JoinSplit(s: string, sep: char)
    ensures Join(Split(s, sep), sep) == s
  {
    if |s| > 0 {
      JoinSplit(s[1..], sep);
      var rest := Split(s[1..], sep);
      if s[0] == sep {
        assert ([""] + rest)[1..] == rest;
        assert s == [sep] + s[1..];
      } else {
        var parts := [[s[0]] + rest[0]] + rest[1..];
        if |rest| == 1 {
          assert s == [s[0]] + s[1..];
        } else {
          assert parts[1..] == rest[1..];
          assert Join(rest, sep) == rest[0] + [sep] + Join(rest[1..], sep);
          assert s == [s[0]] + s[1..];
        }
      }
    }
  }

  /** A piece without sep followed by sep and more text splits off first. */
  lemma {:induction false} SplitPiece(a: string, sep: char, b: string)
    requires sep !in a
    ensures Split(a + [sep] + b, sep) == [a] + Split(b, sep)
    ensures Split(a, sep) == [a]
  {
    if |a| == 0 {
      assert a + [sep] + b == [sep] + b;
      assert ([sep] + b)[1..] == b;
    } else {
      SplitPiece(a[1..], sep, b);
      assert (a + [sep] + b)[1..] == a[1..] + [sep] + b;
      assert (a + [sep] + b)[0] == a[0];
      assert [a[0]] + a[1..] == a;
    }
  }

  /** Joining pieces that hold no sep and splitting again gives the pieces. */
  lemma {:induction false} SplitJoin(parts: seq<string>, sep: char)
    requires |parts| >= 1
    requires forall i :: 0 <= i < |parts| ==> sep !in parts[i]
    ensures Split(Join(parts, sep), sep) == parts
  {
    SplitPiece(parts[0], sep, "");
    if |parts| > 1 {
      SplitJoin(parts[1..], sep);
      SplitPiece(parts[0], sep, Join(parts[1..], sep));
      assert [parts[0]] + parts[1..] == parts;
    }
  }

  /** The text with one trailing carriage return removed, if it has one. */
  function StripCr(s: string): string {
    if |s| > 0 && s[|s| - 1] == '\r' then s[..|s| - 1] else s
  }

  /** str::lines: the lines of s without their line ends. A line ends at
      "\n" or "\r\n"; a last piece that is empty (s is empty or ends with a
      line end) is not a line, and a last piece without "\n" keeps any "\r". */
  function Lines(s: string): (lines: seq<string>)
    ensures forall i :: 0 <= i < |lines| ==> '\n' !in lines[i]
  {
    LinesOf(Split(s, '\n'))
  }

  /** The lines made of the pieces between line feeds: every piece but the
      last loses a final "\r", and an empty last piece is dropped. */
  function LinesOf(parts: seq<string>): (lines: seq<string>)
    requires |parts| >= 1
    ensures (forall i :: 0 <= i < |parts| ==> '\n' !in parts[i]) ==>
              forall i :: 0 <= i < |lines| ==> '\n' !in lines[i]
  {
    if |parts| == 1 then (if parts[0] == "" then [] else [parts[0]])
    else [StripCr(parts[0])] + LinesOf(parts[1..])
  }

  /** Text that a line can hold: no line feed, and no carriage return at
      its end. */
  predicate IsLine(l: string) {
    '\n' !in l && (|l| == 0 || l[|l| - 1] != '\r')
  }

  /** Lines undoes the joining of lines with "\n". */
  lemma LinesOfJoin(lines: seq<string>)
    requires |lines| >= 1 && lines[|lines| - 1] != ""
    requires forall i :: 0 <= i < |lines| ==> IsLine(lines[i])
    ensures Lines(Join(lines, '\n')) == lines
  {
    SplitJoin(lines, '\n');
    LinesOfLines(lines);
  }

  lemma {:induction false} LinesOfLines(lines: seq<string>)
    requires |lines| >= 1 && lines[|lines| - 1] != ""
    requires forall i :: 0 <= i < |lines| ==> IsLine(lines[i])
    ensures LinesOf(lines) == lines
  {
    if |lines| > 1 {
      LinesOfLines(lines[1..]);
      assert IsLine(lines[0]);
      assert [lines[0]] + lines[1..] == lines;
    }
  }
}
