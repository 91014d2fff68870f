/** The examples of the day 2 test module, as lemmas about the model. */
module Day2Tests {
  import opened Strings
  import opened Day2
  import opened Day2Parse
  import opened Day2Render

  const Ones := Pick(1, 1, 1)
  const FourPicks := [Pick(50, 20, 1), Ones, Ones, Ones]
  const OneColourEach := [Pick(5, 0, 0), Pick(0, 5, 0), Pick(0, 0, 5)]

  lemma PickValidation()
    ensures Pick(1, 1, 1).IsValidFor(1, 1, 1)
    ensures Pick(0, 0, 0).IsValidFor(0, 0, 0)
    ensures !Pick(50, 20, 1).IsValidFor(49, 21, 1)
  {
  }

  lemma GameValidation()
    ensures Game(0, [Pick(49, 20, 1)]).IsValidFor(50, 20, 1)
    ensures !Game(0, [Pick(50, 20, 1)]).IsValidFor(49, 21, 1)
    ensures Game(0, FourPicks).IsValidFor(50, 20, 1)
    ensures !Game(0, FourPicks).IsValidFor(1, 2, 1)
  {
    assert FourPicks[0] == Pick(50, 20, 1);
  }

  lemma MinCubesOneColourEach()
    ensures Game(1, OneColourEach).MinCubesNeeded() == (5, 5, 5)
  {
    MinCubesOf(Game(1, OneColourEach), 0, 1, 2);
  }

  lemma MinCubesNoZero()
    ensures Game(1, [Pick(5, 1, 3), Pick(4, 5, 4), Pick(4, 4, 5)]).MinCubesNeeded() == (5, 5, 5)
  {
    MinCubesOf(Game(1, [Pick(5, 1, 3), Pick(4, 5, 4), Pick(4, 4, 5)]), 0, 1, 2);
  }

  /** The minimum is the colour count reached at the given picks, when no
      pick needs more. */
  lemma MinCubesOf(g: Game, i: nat, j: nat, k: nat)
    requires i < |g.picks| && j < |g.picks| && k < |g.picks|
    requires forall n :: 0 <= n < |g.picks| ==>
               g.picks[n].red <= g.picks[i].red && g.picks[n].green <= g.picks[j].green &&
               g.picks[n].blue <= g.picks[k].blue
    ensures g.MinCubesNeeded() == (g.picks[i].red, g.picks[j].green, g.picks[k].blue)
  {
  }

  lemma SolutionPart2Examples()
    ensures Problem([Game(1, OneColourEach)]).SolutionPart2() == 125
    ensures Problem([Game(1, OneColourEach), Game(1, OneColourEach)]).SolutionPart2() == 250
  {
    MinCubesOf(Game(1, OneColourEach), 0, 1, 2);
  }

  lemma SolutionPart1Examples()
    ensures Problem([Game(20, FourPicks)]).SolutionPart1(1, 1, 1) == 0
    ensures Problem([Game(20, FourPicks), Game(30, FourPicks)]).SolutionPart1(1, 1, 1) == 0
    ensures Problem([Game(20, FourPicks), Game(30, FourPicks), Game(7, [Ones, Ones, Ones, Ones])]).SolutionPart1(1, 1, 1) == 7
  {
    assert !Game(20, FourPicks).IsValidFor(1, 1, 1) by {
      assert FourPicks[0] == Pick(50, 20, 1);
    }
    assert !Game(30, FourPicks).IsValidFor(1, 1, 1) by {
      assert FourPicks[0] == Pick(50, 20, 1);
    }
    var seven := Game(7, [Ones, Ones, Ones, Ones]);
    assert seven.IsValidFor(1, 1, 1);
    var games := [Game(20, FourPicks), Game(30, FourPicks), seven];
    assert games[1..] == [Game(30, FourPicks), seven] && games[1..][1..] == [seven];
    assert SumValidIds([seven], 1, 1, 1) == 7;
    assert SumValidIds(games[1..], 1, 1, 1) == SumValidIds([seven], 1, 1, 1);
    assert SumValidIds(games, 1, 1, 1) == SumValidIds(games[1..], 1, 1, 1);
  }

  /** The games of the solution test, as read_line_into_game reads its
      five lines. */
  const SolutionGames := [
    Game(1, [Pick(4, 0, 3), Pick(1, 2, 6), Pick(0, 2, 0)]),
    Game(2, [Pick(0, 2, 1), Pick(1, 3, 4), Pick(0, 1, 1)]),
    Game(3, [Pick(20, 8, 6), Pick(4, 13, 5), Pick(1, 5, 0)]),
    Game(4, [Pick(3, 1, 6), Pick(6, 3, 0), Pick(14, 3, 15)]),
    Game(5, [Pick(6, 3, 1), Pick(1, 2, 2)])
  ]

  /** solution: with a bag of 12 red, 13 green and 14 blue cubes, games 1,
      2 and 5 are possible and the answer is 8. */
  lemma SolutionExample()
    ensures Problem(SolutionGames).SolutionPart1(12, 13, 14) == 8
  {
    var gs := SolutionGames;
    assert gs[0].IsValidFor(12, 13, 14) && gs[1].IsValidFor(12, 13, 14) && gs[4].IsValidFor(12, 13, 14);
    assert !gs[2].IsValidFor(12, 13, 14) by {
      assert gs[2].picks[0] == Pick(20, 8, 6);
    }
    assert !gs[3].IsValidFor(12, 13, 14) by {
      assert gs[3].picks[2] == Pick(14, 3, 15);
    }
    assert SumValidIds(gs[4..], 12, 13, 14) == 5;
    assert SumValidIds(gs[3..], 12, 13, 14) == 5;
    assert SumValidIds(gs[2..], 12, 13, 14) == 5;
    assert SumValidIds(gs[1..], 12, 13, 14) == 7;
  }

  /** A cube entry with a one-digit count, written out. */
  lemma SmallCubeText(c: Cube)
    requires c.count < 10
    ensures CubeText(c) == [' ', DigitChar(c.count), ' '] + ColourName(c.colour)
  {
    var words := [DecimalString(c.count), ColourName(c.colour)];
    assert words[1..] == [ColourName(c.colour)] && words[1..][1..] == [];
    assert DecimalString(c.count) == [DigitChar(c.count)];
    assert Unwords(words[1..]) == " " + ColourName(c.colour) + Unwords([]);
    assert Unwords(words) == " " + [DigitChar(c.count)] + (" " + ColourName(c.colour));
  }

  /** The entry " <d> <colour>" of a one-digit count. */
  lemma CubeTextIs(d: nat, colour: Colour, digit: char, text: string)
    requires d < 10 && digit == DigitChar(d)
    requires text == [' ', digit, ' '] + ColourName(colour)
    ensures CubeText(Cube(d, colour)) == text
  {
    SmallCubeText(Cube(d, colour));
  }

  lemma FirstPickText()
    ensures PickText([Cube(3, Blue), Cube(4, Red)]) == " 3 blue, 4 red"
  {
    CubeTextIs(3, Blue, '3', " 3 blue");
    CubeTextIs(4, Red, '4', " 4 red");
    assert CubeTexts([Cube(3, Blue), Cube(4, Red)]) == [" 3 blue", " 4 red"];
  }

  lemma SecondPickEntries()
    ensures CubeTexts([Cube(1, Red), Cube(2, Green), Cube(6, Blue)]) == [" 1 red", " 2 green", " 6 blue"]
  {
    CubeTextIs(1, Red, '1', " 1 red");
    CubeTextIs(2, Green, '2', " 2 green");
    CubeTextIs(6, Blue, '6', " 6 blue");
  }

  /** Three pieces joined by a separator. */
  lemma JoinThree(a: string, b: string, c: string, sep: char)
    ensures Join([a, b, c], sep) == a + [sep] + (b + [sep] + c)
  {
    var texts := [a, b, c];
    assert texts[1..] == [b, c] && texts[1..][1..] == [c];
    assert Join([c], sep) == c;
    assert Join([b, c], sep) == b + [sep] + c;
  }

  lemma SecondPickText()
    ensures PickText([Cube(1, Red), Cube(2, Green), Cube(6, Blue)]) == " 1 red, 2 green, 6 blue"
  {
    SecondPickEntries();
    JoinThree(" 1 red", " 2 green", " 6 blue", ',');
  }

  lemma ThirdPickText()
    ensures PickText([Cube(2, Green)]) == " 2 green"
  {
    CubeTextIs(2, Green, '2', " 2 green");
    assert CubeTexts([Cube(2, Green)]) == [" 2 green"];
  }

  lemma ExamplePickTexts()
    ensures PickTexts([[Cube(3, Blue), Cube(4, Red)], [Cube(1, Red), Cube(2, Green), Cube(6, Blue)], [Cube(2, Green)]]) ==
            [" 3 blue, 4 red", " 1 red, 2 green, 6 blue", " 2 green"]
  {
    FirstPickText();
    SecondPickText();
    ThirdPickText();
  }

  /** The line of read_line_into_game_test, written out from its cube
      entries. */
  lemma ExampleLineText()
    ensures ExampleLine == GameText(1, ExampleEntries)
  {
    ExamplePickTexts();
    JoinThree(" 3 blue, 4 red", " 1 red, 2 green, 6 blue", " 2 green", ';');
    assert DecimalString(1) == "1" by {
      assert DigitChar(1) == '1';
    }
    assert Unwords(["1"]) == " 1" by {
      assert ["1"][1..] == [];
    }
    ExampleLinePieces();
  }

  /** The line of read_line_into_game_test cut at its separators. */
  lemma ExampleLinePieces()
    ensures "Game 1: 3 blue, 4 red; 1 red, 2 green, 6 blue; 2 green" ==
            "Game" + " 1" + ":" + (" 3 blue, 4 red" + [';'] + (" 1 red, 2 green, 6 blue" + [';'] + " 2 green"))
  {
    ExampleLineHalves();
    ExampleLineFront();
    ExampleLineBack();
  }

  lemma ExampleLineFront()
    ensures "Game 1: 3 blue, 4 red;" == "Game" + " 1" + ":" + " 3 blue, 4 red" + [';']
  {
  }

  lemma ExampleLineBack()
    ensures " 1 red, 2 green, 6 blue; 2 green" == " 1 red, 2 green, 6 blue" + [';'] + " 2 green"
  {
  }

  lemma ExampleLineHalves()
    ensures "Game 1: 3 blue, 4 red; 1 red, 2 green, 6 blue; 2 green" ==
            "Game 1: 3 blue, 4 red;" + " 1 red, 2 green, 6 blue; 2 green"
  {
  }

  /** The line of read_line_into_game_test. */
  const ExampleLine := "Game 1: 3 blue, 4 red; 1 red, 2 green, 6 blue; 2 green"

  /** The cube entries of read_line_into_game_test, pick by pick. */
  const ExampleEntries: seq<seq<Cube>> :=
    [[Cube(3, Blue), Cube(4, Red)], [Cube(1, Red), Cube(2, Green), Cube(6, Blue)], [Cube(2, Green)]]

  lemma FirstPickCounts()
    ensures Fits(ExampleEntries[0]) && PickFor(ExampleEntries[0]) == Pick(4, 0, 3)
  {
    var p := ExampleEntries[0];
    assert p[..1] == [Cube(3, Blue)] && p[..1][..0] == [];
  }

  lemma SecondPickCounts()
    ensures Fits(ExampleEntries[1]) && PickFor(ExampleEntries[1]) == Pick(1, 2, 6)
  {
    var p := ExampleEntries[1];
    assert p[..2] == [Cube(1, Red), Cube(2, Green)];
    assert p[..2][..1] == [Cube(1, Red)] && p[..2][..1][..0] == [];
    forall c ensures CountIn(p[..2][..1], c) == if c == Red then 1 else 0 {
    }
    forall c ensures CountIn(p[..2], c) == if c == Red then 1 else if c == Green then 2 else 0 {
    }
  }

  lemma ThirdPickCounts()
    ensures Fits(ExampleEntries[2]) && PickFor(ExampleEntries[2]) == Pick(0, 2, 0)
  {
    var p := ExampleEntries[2];
    assert p[..0] == [];
  }

  lemma ExampleGame()
    ensures Fits(ExampleEntries[0]) && Fits(ExampleEntries[1]) && Fits(ExampleEntries[2])
    ensures GameFor(1, ExampleEntries) == Game(1, [Pick(4, 0, 3), Pick(1, 2, 6), Pick(0, 2, 0)])
  {
    FirstPickCounts();
    SecondPickCounts();
    ThirdPickCounts();
  }

  /** read_line_into_game_test: the line reads as game 1 with the picks
      (4, 0, 3), (1, 2, 6) and (0, 2, 0). */
  lemma ReadLineExample()
    ensures ParseGame(ExampleLine) == Ok(Game(1, [Pick(4, 0, 3), Pick(1, 2, 6), Pick(0, 2, 0)]))
  {
    ExampleLineText();
    ExampleGame();
    ParseGameText(1, ExampleEntries);
  }
}
