/** Day 1, part 2: the value of a line is built from its first and its last
    token, a token being an ASCII digit or a digit spelled out in English.
    The first token is found by a left-to-right scan; the last one by the
    same scan run over the reversed line with a table of reversed words. */
module Day1Scan {
  import opened Strings

  /** A spelled-out digit and the value it stands for. */
  datatype Word = Word(text: string, value: nat)

  /** The word table of the forward scan, in the order it is searched. */
  const Numbers: seq<Word> := [
    Word("one", 1), Word("two", 2), Word("three", 3), Word("four", 4), Word("five", 5),
    Word("six", 6), Word("seven", 7), Word("eight", 8), Word("nine", 9), Word("zero", 0)
  ]

  /** The word table of the backward scan: every word spelled backwards. */
  const RevNumbers: seq<Word> := [
    Word("eno", 1), Word("owt", 2), Word("eerht", 3), Word("ruof", 4), Word("evif", 5),
    Word("xis", 6), Word("neves", 7), Word("thgie", 8), Word("enin", 9), Word("orez", 0)
  ]

  /** Every entry is a non-empty word without digits whose value is a digit. */
  predicate WellFormed(table: seq<Word>) {
    forall j :: 0 <= j < |table| ==>
      && 0 < |table[j].text|
      && table[j].value < 10
      && forall k :: 0 <= k < |table[j].text| ==> !IsAsciiDigit(table[j].text[k])
  }

  /** No entry is a prefix of another, so at most one word starts anywhere. */
  predicate PrefixFree(table: seq<Word>) {
    forall i, j :: 0 <= i < |table| && 0 <= j < |table| && i != j ==>
      !StartsWith(table[i].text, table[j].text)
  }

  /** The table with each word spelled backwards and the same values. */
  function ReverseTable(table: seq<Word>): (r: seq<Word>)
    ensures |r| == |table|
    ensures forall j :: 0 <= j < |table| ==> r[j] == Word(Reverse(table[j].text), table[j].value)
  {
    seq(|table|, j requires 0 <= j < |table| => Word(Reverse(table[j].text), table[j].value))
  }

  // ---------------------------------------------------------------------
  // The forward scan, stated as functions

  /** Index of the first entry of the table whose word is a prefix of t. */
  function FirstMatch(t: string, table: seq<Word>): (r: Option<nat>)
    ensures r.Some? ==> r.value < |table| && StartsWith(t, table[r.value].text)
    ensures r.Some? ==> forall j :: 0 <= j < r.value ==> !StartsWith(t, table[j].text)
    ensures r.None? ==> forall j :: 0 <= j < |table| ==> !StartsWith(t, table[j].text)
  {
    FirstMatchFrom(t, table, 0)
  }

  /** Index of the first entry at or after i whose word is a prefix of t. */
  function FirstMatchFrom(t: string, table: seq<Word>, i: nat): (r: Option<nat>)
    requires i <= |table|
    ensures r.Some? ==> i <= r.value < |table| && StartsWith(t, table[r.value].text)
    ensures r.Some? ==> forall j :: i <= j < r.value ==> !StartsWith(t, table[j].text)
    ensures r.None? ==> forall j :: i <= j < |table| ==> !StartsWith(t, table[j].text)
    decreases |table| - i
  {
    if i == |table| then None
    else if StartsWith(t, table[i].text) then Some(i)
    else FirstMatchFrom(t, table, i + 1)
  }

  /** The value of the first entry whose word is a prefix of t. */
  function MatchValue(t: string, table: seq<Word>): Option<nat> {
    match FirstMatch(t, table)
    case None => None
    case Some(j) => Some(table[j].value)
  }

  /** The token at position p: the digit there, else the first word of the
      table that starts there. */
  function TokenAt(s: string, p: nat, table: seq<Word>): Option<nat>
    requires p < |s|
  {
    if IsAsciiDigit(s[p]) then Some(DigitValue(s[p])) else MatchValue(s[p..], table)
  }

  /** The leftmost position below k where a token starts. */
  function LeftmostToken(s: string, table: seq<Word>, k: nat): (r: Option<nat>)
    requires k <= |s|
    ensures r.Some? ==> r.value < k && TokenAt(s, r.value, table).Some?
    ensures r.Some? ==> forall p :: 0 <= p < r.value ==> TokenAt(s, p, table).None?
    ensures r.None? ==> forall p :: 0 <= p < k ==> TokenAt(s, p, table).None?
  {
    if k == 0 then None
    else match LeftmostToken(s, table, k - 1)
      case Some(p) => Some(p)
      case None => if TokenAt(s, k - 1, table).Some? then Some(k - 1) else None
  }

  /** What the scan finds: the token at the leftmost position holding one. */
  function FirstToken(s: string, table: seq<Word>): Option<nat> {
    match LeftmostToken(s, table, |s|)
    case None => None
    case Some(p) => TokenAt(s, p, table)
  }

  /** The words the scan keeps before it starts: those no longer than n,
      in table order. */
  function Prefilter(table: seq<Word>, n: nat): (r: seq<Word>)
    ensures |r| <= |table|
    ensures forall j :: 0 <= j < |r| ==> r[j] in table && |r[j].text| <= n
  {
    if |table| == 0 then []
    else
      var last := table[|table| - 1];
      Prefilter(table[..|table| - 1], n) + (if |last.text| <= n then [last] else [])
  }

  // ---------------------------------------------------------------------
  // The forward scan as the source runs it

  /** get_first_numeric_char_or_number_spelled_lr: keeps the words that fit
      in s, then walks s from the left; at each position a digit is taken
      at once, otherwise the first kept word starting there. None stands for
      the Err the source returns when no position holds a token. */
  method FirstNumericCharOrNumberSpelled(s: string, table: seq<Word>) returns (r: Option<nat>)
    ensures r == FirstToken(s, table)
  {
    var possible: seq<Word> := [];
    for k := 0 to |table|
      invariant possible == Prefilter(table[..k], |s|)
    {
      if |table[k].text| <= |s| {
        possible := possible + [table[k]];
      }
      assert table[..k + 1][..k] == table[..k];
    }
    assert table[..|table|] == table;
    for index := 0 to |s|
      invariant forall p :: 0 <= p < index ==> TokenAt(s, p, table).None?
    {
      if IsAsciiDigit(s[index]) {
        FirstTokenIsLeftmost(s, table, index);
        return Some(DigitValue(s[index]));
      }
      for k := 0 to |possible|
        invariant forall j :: 0 <= j < k ==> !StartsWith(s[index..], possible[j].text)
      {
        if StartsWith(s[index..], possible[k].text) {
          assert FirstMatch(s[index..], possible) == Some(k);
          PrefilterHarmless(s[index..], table, |s|);
          FirstTokenIsLeftmost(s, table, index);
          return Some(possible[k].value);
        }
      }
      PrefilterHarmless(s[index..], table, |s|);
    }
    return None;
  }

  /** get_first_number_as_u8. */
  function FirstNumber(s: string): (r: Option<nat>)
    ensures r.Some? ==> r.value < 10
  {
    NumbersWellFormed();
    TokenValueBelowTen(s, Numbers);
    FirstToken(s, Numbers)
  }

  /** get_last_number_as_u8: the forward scan over the reversed line. */
  function LastNumber(s: string): (r: Option<nat>)
    ensures r.Some? ==> r.value < 10
  {
    RevNumbersReversed();
    NumbersWellFormed();
    ReverseWellFormed(Numbers);
    TokenValueBelowTen(Reverse(s), RevNumbers);
    FirstToken(Reverse(s), RevNumbers)
  }

  /** get_nums_from_line_part2; None where the source's expect panics
      because the line holds no token. */
  function LineValue(line: string): (r: Option<nat>)
    ensures r.Some? ==> r.value <= 99
  {
    match FirstNumber(line)
    case None => None
    case Some(first) =>
      match LastNumber(line)
      case None => None
      case Some(last) => Some(10 * first + last)
  }

  /** The per-line values summed in order; None as soon as one line has
      no token (the source panics there). */
  function SumLineValues(lines: seq<string>): (r: Option<nat>)
    ensures r.Some? <==> forall i :: 0 <= i < |lines| ==> LineValue(lines[i]).Some?
    ensures r.Some? ==> r.value <= 99 * |lines|
  {
    if |lines| == 0 then Some(0)
    else match LineValue(lines[0])
      case None => None
      case Some(v) =>
        match SumLineValues(lines[1..])
        case None => None
        case Some(rest) => Some(v + rest)
  }

  /** The sum of a sequence of numbers. */
  function Total(vs: seq<nat>): nat {
    if |vs| == 0 then 0 else vs[0] + Total(vs[1..])
  }

  /** Lines of known values sum to the total of those values. */
  lemma {:induction false} SumOfKnownValues(ls: seq<string>, vs: seq<nat>)
    requires |ls| == |vs|
    requires forall i :: 0 <= i < |ls| ==> LineValue(ls[i]) == Some(vs[i])
    ensures SumLineValues(ls) == Some(Total(vs))
  {
    if |ls| > 0 {
      SumOfKnownValues(ls[1..], vs[1..]);
    }
  }

  /** trebuchet_part_2: the values of the input's lines, summed; None when
      some line holds no number (the expect panics there). */
  function TrebuchetPart2(input: string): (r: Option<nat>)
    ensures r.Some? <==> forall i :: 0 <= i < |Lines(input)| ==> LineValue(Lines(input)[i]).Some?
    ensures r.Some? ==> r.value <= 99 * |Lines(input)|
  {
    SumLineValues(Lines(input))
  }

  /** The answer to an input of one line is that line's value. */
  lemma TrebuchetPart2OfLine(line: string)
    requires line != "" && IsLine(line)
    ensures TrebuchetPart2(line) == LineValue(line)
  {
    LinesOfJoin([line]);
    assert Join([line], '\n') == line;
    assert Lines(line) == [line];
    assert [line][1..] == [];
  }

  // ---------------------------------------------------------------------
  // An independent description of the last token: the one that ENDS
  // rightmost, without any reversal

  /** Index of the first entry of the table whose word is a suffix of t. */
  function FirstSuffixMatch(t: string, table: seq<Word>): (r: Option<nat>)
    ensures r.Some? ==> r.value < |table| && EndsWith(t, table[r.value].text)
    ensures r.Some? ==> forall j :: 0 <= j < r.value ==> !EndsWith(t, table[j].text)
    ensures r.None? ==> forall j :: 0 <= j < |table| ==> !EndsWith(t, table[j].text)
  {
    FirstSuffixMatchFrom(t, table, 0)
  }

  /** Index of the first entry at or after i whose word is a suffix of t. */
  function FirstSuffixMatchFrom(t: string, table: seq<Word>, i: nat): (r: Option<nat>)
    requires i <= |table|
    ensures r.Some? ==> i <= r.value < |table| && EndsWith(t, table[r.value].text)
    ensures r.Some? ==> forall j :: i <= j < r.value ==> !EndsWith(t, table[j].text)
    ensures r.None? ==> forall j :: i <= j < |table| ==> !EndsWith(t, table[j].text)
    decreases |table| - i
  {
    if i == |table| then None
    else if EndsWith(t, table[i].text) then Some(i)
    else FirstSuffixMatchFrom(t, table, i + 1)
  }

  /** The token ending at position e: the digit there, else the first word
      of the table that ends there. */
  function TokenEndingAt(s: string, e: nat, table: seq<Word>): Option<nat>
    requires e < |s|
  {
    if IsAsciiDigit(s[e]) then Some(DigitValue(s[e]))
    else match FirstSuffixMatch(s[..e + 1], table)
      case None => None
      case Some(j) => Some(table[j].value)
  }

  /** The rightmost position below k where a token ends. */
  function RightmostToken(s: string, table: seq<Word>, k: nat): (r: Option<nat>)
    requires k <= |s|
    ensures r.Some? ==> r.value < k && TokenEndingAt(s, r.value, table).Some?
    ensures r.Some? ==> forall e :: r.value < e < k ==> TokenEndingAt(s, e, table).None?
    ensures r.None? ==> forall e :: 0 <= e < k ==> TokenEndingAt(s, e, table).None?
  {
    if k == 0 then None
    else if TokenEndingAt(s, k - 1, table).Some? then Some(k - 1)
    else RightmostToken(s, table, k - 1)
  }

  /** The last token of s: the one ending rightmost. */
  function LastToken(s: string, table: seq<Word>): Option<nat> {
    match RightmostToken(s, table, |s|)
    case None => None
    case Some(e) => TokenEndingAt(s, e, table)
  }

  // ---------------------------------------------------------------------
  // Lemmas: the scan

  /** A token at p with none before it is what the scan returns. */
  lemma FirstTokenIsLeftmost(s: string, table: seq<Word>, p: nat)
    requires p < |s| && TokenAt(s, p, table).Some?
    requires forall q :: 0 <= q < p ==> TokenAt(s, q, table).None?
    ensures FirstToken(s, table) == TokenAt(s, p, table)
  {
    var r := LeftmostToken(s, table, |s|);
    assert r.Some?;
  }

  /** The scan fails exactly when no position holds a digit or the start of
      a table word. */
  lemma ScanFailsIffNoToken(s: string, table: seq<Word>)
    ensures FirstToken(s, table).None? <==>
      forall p :: 0 <= p < |s| ==>
        !IsAsciiDigit(s[p]) && forall j :: 0 <= j < |table| ==> !StartsWith(s[p..], table[j].text)
  {
    if FirstToken(s, table).None? {
      forall p | 0 <= p < |s|
        ensures !IsAsciiDigit(s[p]) && forall j :: 0 <= j < |table| ==> !StartsWith(s[p..], table[j].text)
      {
        assert TokenAt(s, p, table).None?;
      }
    } else {
      var p := LeftmostToken(s, table, |s|).value;
      assert TokenAt(s, p, table).Some?;
      if !IsAsciiDigit(s[p]) {
        assert FirstMatch(s[p..], table).Some?;
      }
    }
  }

  /** How the token at a position is chosen: a digit wins; otherwise the
      earliest table entry whose word starts there. */
  lemma TokenAtChoice(s: string, p: nat, table: seq<Word>, v: nat)
    requires p < |s|
    ensures TokenAt(s, p, table) == Some(v) <==>
      || (IsAsciiDigit(s[p]) && v == DigitValue(s[p]))
      || (&& !IsAsciiDigit(s[p])
          && exists j :: 0 <= j < |table| && StartsWith(s[p..], table[j].text) && v == table[j].value
                         && forall i :: 0 <= i < j ==> !StartsWith(s[p..], table[i].text))
  {
    if !IsAsciiDigit(s[p]) {
      var m := FirstMatch(s[p..], table);
      if m.Some? {
        assert StartsWith(s[p..], table[m.value].text);
      }
      if exists j :: 0 <= j < |table| && StartsWith(s[p..], table[j].text) && v == table[j].value
                     && forall i :: 0 <= i < j ==> !StartsWith(s[p..], table[i].text) {
        var j :| 0 <= j < |table| && StartsWith(s[p..], table[j].text) && v == table[j].value
                 && forall i :: 0 <= i < j ==> !StartsWith(s[p..], table[i].text);
        assert m == Some(j);
      }
    }
  }

  /** Leftmost wins: the scan returns v exactly when v is the token at some
      position and no earlier position holds a token. */
  lemma ScanLeftmostWins(s: string, table: seq<Word>, v: nat)
    ensures FirstToken(s, table) == Some(v) <==>
      exists p :: 0 <= p < |s| && TokenAt(s, p, table) == Some(v)
                  && forall q :: 0 <= q < p ==> TokenAt(s, q, table).None?
  {
    if exists p :: 0 <= p < |s| && TokenAt(s, p, table) == Some(v)
                   && forall q :: 0 <= q < p ==> TokenAt(s, q, table).None? {
      var p :| 0 <= p < |s| && TokenAt(s, p, table) == Some(v)
               && forall q :: 0 <= q < p ==> TokenAt(s, q, table).None?;
      FirstTokenIsLeftmost(s, table, p);
    }
    if FirstToken(s, table) == Some(v) {
      var p := LeftmostToken(s, table, |s|).value;
      assert TokenAt(s, p, table) == Some(v);
    }
  }

  /** With digit values in the table, any token found is a digit value. */
  lemma TokenValueBelowTen(s: string, table: seq<Word>)
    requires WellFormed(table)
    ensures FirstToken(s, table).Some? ==> FirstToken(s, table).value < 10
  {
    if FirstToken(s, table).Some? {
      var p := LeftmostToken(s, table, |s|).value;
      if !IsAsciiDigit(s[p]) {
        var j := FirstMatch(s[p..], table).value;
        assert table[j].value < 10;
      }
    }
  }

  /** The first match over a concatenation: the first table's if it has
      one, the second's otherwise. */
  lemma MatchValueAppend(t: string, a: seq<Word>, b: seq<Word>)
    ensures MatchValue(t, a + b) == if MatchValue(t, a).Some? then MatchValue(t, a) else MatchValue(t, b)
  {
    var ma, mb := FirstMatch(t, a), FirstMatch(t, b);
    if ma.Some? {
      assert (a + b)[ma.value] == a[ma.value];
      assert forall j :: 0 <= j < ma.value ==> (a + b)[j] == a[j];
      FirstMatchUnique(t, a + b, ma.value);
    } else if mb.Some? {
      assert (a + b)[|a| + mb.value] == b[mb.value];
      assert forall j :: 0 <= j < |a| ==> (a + b)[j] == a[j];
      assert forall j :: |a| <= j < |a| + mb.value ==> (a + b)[j] == b[j - |a|];
      FirstMatchUnique(t, a + b, |a| + mb.value);
    } else {
      assert forall j :: 0 <= j < |a| + |b| ==> (a + b)[j] == if j < |a| then a[j] else b[j - |a|];
    }
  }

  /** The first entry that matches, with none matching before it, is the
      one FirstMatch picks. */
  lemma FirstMatchUnique(t: string, table: seq<Word>, j: nat)
    requires j < |table| && StartsWith(t, table[j].text)
    requires forall i :: 0 <= i < j ==> !StartsWith(t, table[i].text)
    ensures FirstMatch(t, table) == Some(j)
  {
  }

  /** The length prefilter is harmless: a word longer than the text cannot
      be a prefix of it. */
  lemma {:induction false} PrefilterHarmless(t: string, table: seq<Word>, n: nat)
    requires |t| <= n
    ensures MatchValue(t, Prefilter(table, n)) == MatchValue(t, table)
  {
    if |table| > 0 {
      var init, last := table[..|table| - 1], table[|table| - 1];
      assert table == init + [last];
      PrefilterHarmless(t, init, n);
      MatchValueAppend(t, init, [last]);
      var kept := if |last.text| <= n then [last] else [];
      MatchValueAppend(t, Prefilter(init, n), kept);
      if |last.text| > n {
        assert !StartsWith(t, last.text);
        assert MatchValue(t, [last]) == None;
        assert MatchValue(t, kept) == None;
      }
    }
  }

  /** The prefilter does not change what the scan finds. */
  lemma PrefilterKeepsScan(s: string, table: seq<Word>)
    ensures FirstToken(s, Prefilter(table, |s|)) == FirstToken(s, table)
  {
    var kept := Prefilter(table, |s|);
    forall p | 0 <= p < |s| ensures TokenAt(s, p, kept) == TokenAt(s, p, table) {
      PrefilterHarmless(s[p..], table, |s|);
    }
    var a, b := LeftmostToken(s, kept, |s|), LeftmostToken(s, table, |s|);
    assert a == b;
  }

  // ---------------------------------------------------------------------
  // Lemmas: the last token by reversal

  lemma ReverseWellFormed(table: seq<Word>)
    requires WellFormed(table)
    ensures WellFormed(ReverseTable(table))
  {
    var r := ReverseTable(table);
    forall j, k | 0 <= j < |r| && 0 <= k < |r[j].text| ensures !IsAsciiDigit(r[j].text[k]) {
      assert r[j].text[k] == table[j].text[|table[j].text| - 1 - k];
    }
  }

  /** Each word of the backward table is the matching word of the forward
      table spelled backwards, with the same value. */
  lemma RevNumbersReversed()
    ensures RevNumbers == ReverseTable(Numbers)
  {
    var r := ReverseTable(Numbers);
    forall j | 0 <= j < |r| ensures r[j] == RevNumbers[j] {
      if j == 0 { RevNumber0(); } else if j == 1 { RevNumber1(); } else if j == 2 { RevNumber2(); }
      else if j == 3 { RevNumber3(); } else if j == 4 { RevNumber4(); } else if j == 5 { RevNumber5(); }
      else if j == 6 { RevNumber6(); } else if j == 7 { RevNumber7(); } else if j == 8 { RevNumber8(); }
      else { RevNumber9(); }
    }
  }

  // One entry of the backward table at a time.
  lemma RevNumber0() ensures ReverseTable(Numbers)[0] == RevNumbers[0] { assert Reverse("one") == "eno"; }
  lemma RevNumber1() ensures ReverseTable(Numbers)[1] == RevNumbers[1] { assert Reverse("two") == "owt"; }
  lemma RevNumber2() ensures ReverseTable(Numbers)[2] == RevNumbers[2] { assert Reverse("three") == "eerht"; }
  lemma RevNumber3() ensures ReverseTable(Numbers)[3] == RevNumbers[3] { assert Reverse("four") == "ruof"; }
  lemma RevNumber4() ensures ReverseTable(Numbers)[4] == RevNumbers[4] { assert Reverse("five") == "evif"; }
  lemma RevNumber5() ensures ReverseTable(Numbers)[5] == RevNumbers[5] { assert Reverse("six") == "xis"; }
  lemma RevNumber6() ensures ReverseTable(Numbers)[6] == RevNumbers[6] { assert Reverse("seven") == "neves"; }
  lemma RevNumber7() ensures ReverseTable(Numbers)[7] == RevNumbers[7] { assert Reverse("eight") == "thgie"; }
  lemma RevNumber8() ensures ReverseTable(Numbers)[8] == RevNumbers[8] { assert Reverse("nine") == "enin"; }
  lemma RevNumber9() ensures ReverseTable(Numbers)[9] == RevNumbers[9] { assert Reverse("zero") == "orez"; }

  /** A reversed word is a prefix of the reversed text exactly when the word
      is a suffix of the text, so both tables pick the same entry. */
  lemma FirstMatchReverse(t: string, table: seq<Word>)
    ensures FirstMatch(Reverse(t), ReverseTable(table)) == FirstSuffixMatch(t, table)
  {
    var rt := ReverseTable(table);
    forall j | 0 <= j < |table| ensures StartsWith(Reverse(t), rt[j].text) <==> EndsWith(t, table[j].text) {
      StartsWithReverse(t, table[j].text);
    }
    var a, b := FirstMatch(Reverse(t), rt), FirstSuffixMatch(t, table);
    assert a == b;
  }

  /** The token at position p of the reversed line is the token ending at
      the mirrored position of the line. */
  lemma TokenAtReverse(s: string, p: nat, table: seq<Word>)
    requires p < |s|
    ensures TokenAt(Reverse(s), p, ReverseTable(table)) == TokenEndingAt(s, |s| - 1 - p, table)
  {
    var e := |s| - 1 - p;
    if !IsAsciiDigit(s[e]) {
      var u := s[..|s| - p];
      var rest := Reverse(s)[p..];
      assert rest == Reverse(u) by { ReverseDrop(s, p); }
      assert TokenAt(Reverse(s), p, ReverseTable(table)) == MatchValue(rest, ReverseTable(table));
      MatchValueReverse(u, table);
    }
  }

  /** The value the backward table finds at the start of the reversed text
      is the value of the first word ending the text. */
  lemma MatchValueReverse(u: string, table: seq<Word>)
    ensures MatchValue(Reverse(u), ReverseTable(table)) ==
      match FirstSuffixMatch(u, table) case None => None case Some(j) => Some(table[j].value)
  {
    FirstMatchReverse(u, table);
  }

  /** Reversal gives the rightmost token: the backward scan returns the token
      that ends rightmost in the line. */
  lemma LastTokenByReversal(s: string, table: seq<Word>)
    ensures FirstToken(Reverse(s), ReverseTable(table)) == LastToken(s, table)
  {
    var rs, rt := Reverse(s), ReverseTable(table);
    forall p | 0 <= p < |s| ensures TokenAt(rs, p, rt) == TokenEndingAt(s, |s| - 1 - p, table) {
      TokenAtReverse(s, p, table);
    }
    var a, b := LeftmostToken(rs, rt, |s|), RightmostToken(s, table, |s|);
    if a.Some? {
      var p := a.value;
      assert TokenEndingAt(s, |s| - 1 - p, table).Some?;
      assert b.Some?;
      var e := b.value;
      assert TokenAt(rs, |s| - 1 - e, rt).Some?;
      assert e == |s| - 1 - p;
    } else {
      forall e | 0 <= e < |s| ensures TokenEndingAt(s, e, table).None? {
        assert TokenAt(rs, |s| - 1 - e, rt).None?;
      }
    }
  }

  /** get_last_number_as_u8 returns the token ending rightmost in the line. */
  lemma LastNumberIsRightmost(s: string)
    ensures LastNumber(s) == LastToken(s, Numbers)
  {
    RevNumbersReversed();
    LastTokenByReversal(s, Numbers);
  }

  // ---------------------------------------------------------------------
  // Lemmas: where tokens start and end

  /** A token ending at e with none ending after it is what the reference
      description of the last token picks. */
  lemma LastTokenIsRightmost(s: string, table: seq<Word>, e: nat)
    requires e < |s| && TokenEndingAt(s, e, table).Some?
    requires forall f :: e < f < |s| ==> TokenEndingAt(s, f, table).None?
    ensures LastToken(s, table) == TokenEndingAt(s, e, table)
  {
    var r := RightmostToken(s, table, |s|);
    assert r.Some?;
  }

  /** A word of the table ending at e starts a token at e + 1 - |word|. */
  lemma WordEndStartsToken(s: string, table: seq<Word>, e: nat, j: nat)
    requires e < |s| && j < |table| && 0 < |table[j].text|
    ensures EndsWith(s[..e + 1], table[j].text) ==>
      var q := e + 1 - |table[j].text|;
      && q < |s| && StartsWith(s[q..], table[j].text) && TokenAt(s, q, table).Some?
  {
    var w := table[j].text;
    if EndsWith(s[..e + 1], w) {
      var q := e + 1 - |w|;
      assert s[q..][..|w|] == s[..e + 1][q..];
    }
  }

  /** A word of the table starting at p ends a token at p + |word| - 1. */
  lemma WordStartEndsToken(s: string, table: seq<Word>, p: nat, j: nat)
    requires p < |s| && j < |table| && 0 < |table[j].text|
    ensures StartsWith(s[p..], table[j].text) ==>
      var e := p + |table[j].text| - 1;
      && e < |s| && EndsWith(s[..e + 1], table[j].text) && TokenEndingAt(s, e, table).Some?
  {
    var w := table[j].text;
    if StartsWith(s[p..], w) {
      var e := p + |w| - 1;
      assert s[..e + 1][p..] == s[p..][..|w|];
      if !IsAsciiDigit(s[e]) {
        assert FirstSuffixMatch(s[..e + 1], table).Some?;
      }
    }
  }

  /** With non-empty words, a line has a first token exactly when it has a
      last one. */
  lemma TokenStartsIffEnds(s: string, table: seq<Word>)
    requires forall j :: 0 <= j < |table| ==> 0 < |table[j].text|
    ensures FirstToken(s, table).None? <==> LastToken(s, table).None?
  {
    if FirstToken(s, table).Some? {
      var p := LeftmostToken(s, table, |s|).value;
      if IsAsciiDigit(s[p]) {
        assert TokenEndingAt(s, p, table).Some?;
      } else {
        var j := FirstMatch(s[p..], table).value;
        WordStartEndsToken(s, table, p, j);
        assert TokenEndingAt(s, p + |table[j].text| - 1, table).Some?;
      }
    }
    if LastToken(s, table).Some? {
      var e := RightmostToken(s, table, |s|).value;
      if IsAsciiDigit(s[e]) {
        assert TokenAt(s, e, table).Some?;
      } else {
        var j := FirstSuffixMatch(s[..e + 1], table).value;
        WordEndStartsToken(s, table, e, j);
        assert TokenAt(s, e + 1 - |table[j].text|, table).Some?;
      }
    }
  }

  /** A line whose only token starts at p: the last token is that same one,
      provided no word holds a digit and no word is a prefix of another. */
  lemma SingleTokenEnds(s: string, table: seq<Word>, p: nat)
    requires WellFormed(table) && PrefixFree(table)
    requires p < |s| && TokenAt(s, p, table).Some?
    requires forall q :: 0 <= q < |s| && q != p ==> TokenAt(s, q, table).None?
    ensures LastToken(s, table) == TokenAt(s, p, table)
  {
    if IsAsciiDigit(s[p]) {
      forall f | p < f < |s| ensures TokenEndingAt(s, f, table).None? {
        NoWordEndsAfter(s, table, p, p, f);
      }
      LastTokenIsRightmost(s, table, p);
    } else {
      var j0 := FirstMatch(s[p..], table).value;
      var e0 := p + |table[j0].text| - 1;
      SingleWordEnds(s, table, p, j0);
      forall f | e0 < f < |s| ensures TokenEndingAt(s, f, table).None? {
        NoWordEndsAfter(s, table, p, e0, f);
      }
      LastTokenIsRightmost(s, table, e0);
    }
  }

  /** A line whose only token is a word starting at p: the token ending
      where that word, the entry j0, ends is the same word. */
  lemma SingleWordEnds(s: string, table: seq<Word>, p: nat, j0: nat)
    requires WellFormed(table) && PrefixFree(table)
    requires p < |s| && !IsAsciiDigit(s[p]) && FirstMatch(s[p..], table) == Some(j0)
    requires forall q :: 0 <= q < |s| && q != p ==> TokenAt(s, q, table).None?
    ensures p + |table[j0].text| - 1 < |s|
    ensures TokenEndingAt(s, p + |table[j0].text| - 1, table) == TokenAt(s, p, table)
  {
    var e0 := p + |table[j0].text| - 1;
    WordEndsAt(s, table, p, j0);
    var m := FirstSuffixMatch(s[..e0 + 1], table);
    assert m.Some?;
    OnlyWordEndingThere(s, table, p, j0, e0, m.value);
  }

  /** A word of the table starting at p ends, within s, on a letter. */
  lemma WordEndsAt(s: string, table: seq<Word>, p: nat, j0: nat)
    requires WellFormed(table)
    requires p < |s| && j0 < |table| && StartsWith(s[p..], table[j0].text)
    ensures p + |table[j0].text| - 1 < |s|
    ensures EndsWith(s[..p + |table[j0].text|], table[j0].text)
    ensures !IsAsciiDigit(s[p + |table[j0].text| - 1])
  {
    var w0 := table[j0].text;
    WordStartEndsToken(s, table, p, j0);
    assert s[p + |w0| - 1] == s[p..][..|w0|][|w0| - 1];
    assert !IsAsciiDigit(w0[|w0| - 1]);
  }

  /** In a line whose only token is the word j0 starting at p, any word
      ending where j0 ends is j0 itself. */
  lemma OnlyWordEndingThere(s: string, table: seq<Word>, p: nat, j0: nat, e0: nat, j: nat)
    requires WellFormed(table) && PrefixFree(table)
    requires p < |s| && j0 < |table| && j < |table| && StartsWith(s[p..], table[j0].text)
    requires forall q :: 0 <= q < |s| && q != p ==> TokenAt(s, q, table).None?
    requires e0 == p + |table[j0].text| - 1 && e0 < |s|
    requires EndsWith(s[..e0 + 1], table[j].text)
    ensures j == j0
  {
    WordEndStartsToken(s, table, e0, j);
    assert |table[j].text| == |table[j0].text|;
    assert table[j].text == table[j0].text by {
      assert s[p..][..|table[j0].text|] == table[j].text;
    }
    assert StartsWith(table[j].text, table[j0].text);
  }

  /** In a line whose only token starts at p, nothing ends at f beyond the
      end e0 of that token. */
  lemma NoWordEndsAfter(s: string, table: seq<Word>, p: nat, e0: nat, f: nat)
    requires WellFormed(table) && PrefixFree(table)
    requires p <= e0 < f < |s| && TokenAt(s, p, table).Some?
    requires forall q :: 0 <= q < |s| && q != p ==> TokenAt(s, q, table).None?
    requires IsAsciiDigit(s[p]) ==> e0 == p
    requires !IsAsciiDigit(s[p]) ==> e0 == p + |table[FirstMatch(s[p..], table).value].text| - 1
    ensures TokenEndingAt(s, f, table).None?
  {
    assert TokenAt(s, f, table).None?;
    forall j | 0 <= j < |table| ensures !EndsWith(s[..f + 1], table[j].text) {
      WordEndStartsToken(s, table, f, j);
      if EndsWith(s[..f + 1], table[j].text) && !IsAsciiDigit(s[p]) {
        CommonPrefix(s[p..], table[FirstMatch(s[p..], table).value].text, table[j].text);
      }
    }
  }

  /** A line with a single token: its value is eleven times the token's. */
  lemma SingleTokenLine(s: string, p: nat)
    requires p < |s| && TokenAt(s, p, Numbers).Some?
    requires forall q :: 0 <= q < |s| && q != p ==> TokenAt(s, q, Numbers).None?
    ensures LineValue(s) == Some(11 * TokenAt(s, p, Numbers).value)
  {
    var v := TokenAt(s, p, Numbers);
    assert FirstNumber(s) == v by {
      FirstTokenIsLeftmost(s, Numbers, p);
    }
    assert LastNumber(s) == v by {
      NumbersWellFormed();
      NumbersPrefixFree();
      SingleTokenEnds(s, Numbers, p);
      LastNumberIsRightmost(s);
    }
  }

  /** get_nums_from_line_part2: 10 * first + last, the first token being the
      leftmost and the last the one ending rightmost; the line has a value
      exactly when some position holds a digit or the start of a word. */
  lemma LineValueFromEnds(line: string)
    ensures LineValue(line).None? <==> forall p :: 0 <= p < |line| ==> TokenAt(line, p, Numbers).None?
    ensures LineValue(line).Some? ==>
      && FirstToken(line, Numbers).Some? && LastToken(line, Numbers).Some?
      && LineValue(line).value == 10 * FirstToken(line, Numbers).value + LastToken(line, Numbers).value
  {
    NumbersWellFormed();
    LastNumberIsRightmost(line);
    TokenStartsIffEnds(line, Numbers);
    if FirstToken(line, Numbers).Some? {
      assert TokenAt(line, LeftmostToken(line, Numbers, |line|).value, Numbers).Some?;
    }
  }

  // ---------------------------------------------------------------------
  // Lemmas: the word tables

  lemma NumbersWellFormed()
    ensures WellFormed(Numbers)
  {
    forall j, k | 0 <= j < |Numbers| && 0 <= k < |Numbers[j].text|
      ensures !IsAsciiDigit(Numbers[j].text[k])
    {
      assert 'a' <= Numbers[j].text[k] <= 'z';
    }
  }

  /** Three characters packed into one number, to compare spellings cheaply. */
  function Code3(a: char, b: char, c: char): int {
    (a as int * 0x1_0000 + b as int) * 0x1_0000 + c as int
  }

  /** The first three letters of each word of Numbers, packed. */
  const StartCodes: seq<int> := [
    Code3('o', 'n', 'e'), Code3('t', 'w', 'o'), Code3('t', 'h', 'r'), Code3('f', 'o', 'u'), Code3('f', 'i', 'v'),
    Code3('s', 'i', 'x'), Code3('s', 'e', 'v'), Code3('e', 'i', 'g'), Code3('n', 'i', 'n'), Code3('z', 'e', 'r')
  ]

  /** The last three letters of each word of Numbers, packed. */
  const EndCodes: seq<int> := [
    Code3('o', 'n', 'e'), Code3('t', 'w', 'o'), Code3('r', 'e', 'e'), Code3('o', 'u', 'r'), Code3('i', 'v', 'e'),
    Code3('s', 'i', 'x'), Code3('v', 'e', 'n'), Code3('g', 'h', 't'), Code3('i', 'n', 'e'), Code3('e', 'r', 'o')
  ]

  /** Every word has at least three letters, and its first and last three
      letters are the ones recorded in StartCodes and EndCodes. */
  lemma NumbersCodes()
    ensures forall j :: 0 <= j < |Numbers| ==>
      var w := Numbers[j].text;
      && |w| >= 3
      && Code3(w[0], w[1], w[2]) == StartCodes[j]
      && Code3(w[|w| - 3], w[|w| - 2], w[|w| - 1]) == EndCodes[j]
  {
  }

  /** No two words share their first three letters, nor their last three. */
  lemma CodesDistinct()
    ensures forall i, j :: 0 <= i < j < |Numbers| ==> StartCodes[i] != StartCodes[j] && EndCodes[i] != EndCodes[j]
  {
  }

  lemma NumbersPrefixFree()
    ensures PrefixFree(Numbers)
  {
    NumbersCodes();
    CodesDistinct();
    forall i, j | 0 <= i < |Numbers| && 0 <= j < |Numbers| && i != j
      ensures !StartsWith(Numbers[i].text, Numbers[j].text)
    {
    }
  }
}
