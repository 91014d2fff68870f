/** Day 2: game lines written out in the puzzle's format, and the proof that
    read_line_into_game reads such a line back into the game it describes. */
module Day2Render {
  import opened Strings
  import opened Day2
  import opened Day2Parse

  /** One cube entry of a line, such as "3 blue". */
  datatype Cube = Cube(count: U8, colour: Colour)

  /** The word the puzzle uses for a colour. */
  function ColourName(c: Colour): (w: string)
    ensures ColourOf(w) == Some(c)
    ensures IsWord(w) && ',' !in w && ';' !in w && ':' !in w
  {
    match c
    case Red => "red"
    case Green => "green"
    case Blue => "blue"
  }

  /** A cube entry as it follows a ',' or ';' or ':': " 3 blue". */
  function CubeText(c: Cube): string {
    Unwords([DecimalString(c.count), ColourName(c.colour)])
  }

  function CubeTexts(cubes: seq<Cube>): (texts: seq<string>)
    ensures |texts| == |cubes| && forall i :: 0 <= i < |cubes| ==> texts[i] == CubeText(cubes[i])
  {
    seq(|cubes|, i requires 0 <= i < |cubes| => CubeText(cubes[i]))
  }

  /** A pick: its cube entries separated by ','. */
  function PickText(cubes: seq<Cube>): string
    requires |cubes| >= 1
  {
    Join(CubeTexts(cubes), ',')
  }

  /** Each pick of a line names at least one cube. */
  predicate Shown(picks: seq<seq<Cube>>) {
    |picks| >= 1 && forall i :: 0 <= i < |picks| ==> |picks[i]| >= 1
  }

  function PickTexts(picks: seq<seq<Cube>>): (texts: seq<string>)
    requires Shown(picks)
    ensures |texts| == |picks| && forall i :: 0 <= i < |picks| ==> texts[i] == PickText(picks[i])
  {
    seq(|picks|, i requires 0 <= i < |picks| => PickText(picks[i]))
  }

  /** A line of the puzzle input: "Game <id>:" and the picks separated by ';'. */
  function GameText(id: U32, picks: seq<seq<Cube>>): string
    requires Shown(picks)
  {
    "Game" + Unwords([DecimalString(id)]) + ":" + Join(PickTexts(picks), ';')
  }

  /** The number of cubes of colour c the entries of a pick name. */
  function CountIn(cubes: seq<Cube>, c: Colour): nat {
    if |cubes| == 0 then 0
    else CountIn(cubes[..|cubes| - 1], c) +
         (if cubes[|cubes| - 1].colour == c then cubes[|cubes| - 1].count else 0)
  }

  /** No colour of a pick adds up to more than a u8 holds. */
  predicate Fits(cubes: seq<Cube>) {
    CountIn(cubes, Red) <= 255 && CountIn(cubes, Green) <= 255 && CountIn(cubes, Blue) <= 255
  }

  /** The pick the entries describe. */
  function PickFor(cubes: seq<Cube>): Pick
    requires Fits(cubes)
  {
    Pick(CountIn(cubes, Red), CountIn(cubes, Green), CountIn(cubes, Blue))
  }

  /** The game a line describes. */
  function GameFor(id: U32, picks: seq<seq<Cube>>): (g: Game)
    requires forall i :: 0 <= i < |picks| ==> Fits(picks[i])
    ensures g.id == id && |g.picks| == |picks|
    ensures forall i :: 0 <= i < |picks| ==> g.picks[i] == PickFor(picks[i])
  {
    Game(id, seq(|picks|, i requires 0 <= i < |picks| => PickFor(picks[i])))
  }

  /** A number written in decimal is a single word free of separators. */
  lemma DecimalWord(v: nat)
    ensures IsWord(DecimalString(v))
    ensures ',' !in DecimalString(v) && ';' !in DecimalString(v) && ':' !in DecimalString(v)
  {
    var s := DecimalString(v);
    forall i | 0 <= i < |s| ensures !IsAsciiWhitespace(s[i]) && s[i] != ',' && s[i] != ';' && s[i] != ':' {
      assert IsAsciiDigit(s[i]);
    }
  }

  /** A cube entry reads back as its colour and count. */
  lemma ParseCubeText(c: Cube)
    ensures ParseCube(CubeText(c)) == Ok((c.colour, c.count))
    ensures ',' !in CubeText(c) && ';' !in CubeText(c) && ':' !in CubeText(c)
  {
    var words := [DecimalString(c.count), ColourName(c.colour)];
    DecimalWord(c.count);
    SplitUnwords(words);
    ParseDecimalString(c.count, 255);
    var cr := SplitAsciiWhitespace(CubeText(c));
    assert cr[0] == DecimalString(c.count) && cr[1] == ColourName(c.colour);
    UnwordsExcludes(words, ',');
    UnwordsExcludes(words, ';');
    UnwordsExcludes(words, ':');
  }

  /** The entries tally each colour as the cubes name it. */
  lemma {:induction false} TallyOfCubes(cubes: seq<Cube>, entries: seq<Result<(Colour, U8)>>, c: Colour)
    requires |entries| == |cubes|
    requires forall i :: 0 <= i < |cubes| ==> entries[i] == Ok((cubes[i].colour, cubes[i].count))
    ensures Tally(entries, c) == CountIn(cubes, c)
  {
    if |cubes| > 0 {
      TallyOfCubes(cubes[..|cubes| - 1], entries[..|entries| - 1], c);
    }
  }

  /** A pick written out reads back as the pick its entries describe. */
  lemma PickOfText(cubes: seq<Cube>)
    requires |cubes| >= 1 && Fits(cubes)
    ensures PickOf(PickText(cubes)) == Ok(PickFor(cubes))
    ensures ';' !in PickText(cubes) && ':' !in PickText(cubes)
  {
    var texts := CubeTexts(cubes);
    forall i | 0 <= i < |texts| ensures ',' !in texts[i] && ';' !in texts[i] && ':' !in texts[i] {
      ParseCubeText(cubes[i]);
    }
    SplitJoin(texts, ',');
    JoinExcludes(texts, ',', ';');
    JoinExcludes(texts, ',', ':');
    var entries := ParsedCubes(texts);
    forall i | 0 <= i < |cubes| ensures entries[i] == Ok((cubes[i].colour, cubes[i].count)) {
      ParseCubeText(cubes[i]);
    }
    AddUpTallies(entries);
    TallyOfCubes(cubes, entries, Red);
    TallyOfCubes(cubes, entries, Green);
    TallyOfCubes(cubes, entries, Blue);
    var p := AddUp(entries).value;
    assert CountOf(p, Red) == CountIn(cubes, Red);
    assert CountOf(p, Green) == CountIn(cubes, Green);
    assert CountOf(p, Blue) == CountIn(cubes, Blue);
  }

  /** The text before the ':' of a game line holds "Game" and the id. */
  lemma HeadText(id: U32)
    ensures SplitAsciiWhitespace("Game" + Unwords([DecimalString(id)])) == ["Game", DecimalString(id)]
    ensures ParseUnsigned(DecimalString(id), U32Max) == Some(id)
  {
    DecimalWord(id);
    SplitWordAndUnwords("Game", [DecimalString(id)]);
    ParseDecimalString(id, U32Max);
  }

  lemma HeadHasNoColon(id: U32)
    ensures ':' !in "Game" + Unwords([DecimalString(id)])
  {
    DecimalWord(id);
    UnwordsExcludes([DecimalString(id)], ':');
  }

  lemma BodyHasNoColon(picks: seq<seq<Cube>>)
    requires Shown(picks)
    ensures ':' !in Join(PickTexts(picks), ';')
  {
    var texts := PickTexts(picks);
    forall i | 0 <= i < |texts| ensures ':' !in texts[i] {
      var texts' := CubeTexts(picks[i]);
      forall k | 0 <= k < |texts'| ensures ':' !in texts'[k] {
        ParseCubeText(picks[i][k]);
      }
      JoinExcludes(texts', ',', ':');
    }
    JoinExcludes(texts, ';', ':');
  }

  /** The text after the ':' of a game line reads as its picks. */
  lemma BodyText(id: U32, picks: seq<seq<Cube>>)
    requires Shown(picks) && forall i :: 0 <= i < |picks| ==> Fits(picks[i])
    ensures Collect(SegmentPicks(Split(Join(PickTexts(picks), ';'), ';'))) == Ok(GameFor(id, picks).picks)
  {
    var texts := PickTexts(picks);
    forall i | 0 <= i < |texts| ensures ';' !in texts[i] && PickOf(texts[i]) == Ok(PickFor(picks[i])) {
      PickOfText(picks[i]);
    }
    SplitJoin(texts, ';');
    var rs := SegmentPicks(texts);
    assert forall i :: 0 <= i < |rs| ==> rs[i] == Ok(GameFor(id, picks).picks[i]);
    var ps := Collect(rs).value;
    assert ps == GameFor(id, picks).picks;
  }

  /** A game line is its head and its body on either side of one ':'. */
  lemma GameTextParts(id: U32, picks: seq<seq<Cube>>)
    requires Shown(picks) && forall i :: 0 <= i < |picks| ==> Fits(picks[i])
    ensures Split(GameText(id, picks), ':') == ["Game" + Unwords([DecimalString(id)]), Join(PickTexts(picks), ';')]
  {
    var head := "Game" + Unwords([DecimalString(id)]);
    var body := Join(PickTexts(picks), ';');
    HeadHasNoColon(id);
    BodyHasNoColon(picks);
    assert [head, body][1..] == [body];
    assert GameText(id, picks) == Join([head, body], ':');
    SplitJoin([head, body], ':');
  }

  /** What read_line_into_game makes of a line, from the pieces it splits
      the line into. */
  lemma ParseGameOfParts(line: string, head: string, body: string, id: U32, ps: seq<Pick>)
    requires Split(line, ':') == [head, body]
    requires |SplitAsciiWhitespace(head)| == 2
    requires ParseUnsigned(SplitAsciiWhitespace(head)[1], U32Max) == Some(id)
    requires Collect(SegmentPicks(Split(body, ';'))) == Ok(ps)
    ensures ParseGame(line) == Ok(Game(id, ps))
  {
  }

  /** Round trip: a game line written out from its id and cube entries is
      read by read_line_into_game as that game, whenever no colour of a pick
      adds up to more than 255. */
  lemma ParseGameText(id: U32, picks: seq<seq<Cube>>)
    requires Shown(picks) && forall i :: 0 <= i < |picks| ==> Fits(picks[i])
    ensures ParseGame(GameText(id, picks)) == Ok(GameFor(id, picks))
  {
    HeadText(id);
    BodyText(id, picks);
    GameTextParts(id, picks);
    ParseGameOfParts(GameText(id, picks), "Game" + Unwords([DecimalString(id)]), Join(PickTexts(picks), ';'),
                     id, GameFor(id, picks).picks);
  }
}
