/** Day 2: read_line_into_game and read_file_into_problem, which turn lines
    such as "Game 1: 3 blue, 4 red; 1 red, 2 green" into Game records. */
module Day2Parse {
  import opened Strings
  import opened Day2

  const U32Max: nat := 0xffff_ffff

  datatype Colour = Red | Green | Blue

  /** Why a line cannot be read; in the source each is a panic. In the order
      the source meets them: no ':' (the index [1] of the split), fewer than
      two words before ':' (the index [1] of the words), a cube without a
      count word (the index [0]), a count that is no u8, a cube without a
      colour word (the index [1]), a colour other than red, green and blue,
      a colour total above 255 (the u8 += overflows), an id that is no u32. */
  datatype ParseError =
    | MissingData
    | MissingId
    | MissingCount
    | BadCount
    | MissingColour
    | UnknownColour
    | CountOverflow
    | BadId

  datatype Result<T> = Ok(value: T) | Err(error: ParseError)

  /** The colour a word names, if any. */
  function ColourOf(word: string): Option<Colour> {
    if word == "red" then Some(Red)
    else if word == "green" then Some(Green)
    else if word == "blue" then Some(Blue)
    else None
  }

  /** One comma-separated cube entry such as " 3 blue": the count word,
      then the colour word; any further words are ignored. */
  function ParseCube(cube: string): Result<(Colour, U8)> {
    var cr := SplitAsciiWhitespace(cube);
    if |cr| == 0 then Err(MissingCount)
    else match ParseUnsigned(cr[0], 255)
      case None => Err(BadCount)
      case Some(n) =>
        if |cr| < 2 then Err(MissingColour)
        else match ColourOf(cr[1])
          case None => Err(UnknownColour)
          case Some(c) => Ok((c, n))
  }

  /** The count of colour c raised by n, as red_count += number and its
      kin, which overflow above 255. */
  function AddCount(p: Pick, c: Colour, n: U8): Result<Pick> {
    match c
    case Red => if p.red + n > 255 then Err(CountOverflow) else Ok(p.(red := p.red + n))
    case Green => if p.green + n > 255 then Err(CountOverflow) else Ok(p.(green := p.green + n))
    case Blue => if p.blue + n > 255 then Err(CountOverflow) else Ok(p.(blue := p.blue + n))
  }

  /** The cube entries read one by one, in order. */
  function ParsedCubes(cubes: seq<string>): (entries: seq<Result<(Colour, U8)>>)
    ensures |entries| == |cubes| && forall i :: 0 <= i < |cubes| ==> entries[i] == ParseCube(cubes[i])
  {
    seq(|cubes|, i requires 0 <= i < |cubes| => ParseCube(cubes[i]))
  }

  /** The counts of the read entries added up in order, from no cubes of
      any colour; the first entry that failed to read, or the first sum
      above 255, decides the error. */
  function AddUp(entries: seq<Result<(Colour, U8)>>): Result<Pick> {
    if |entries| == 0 then Ok(Pick(0, 0, 0))
    else match AddUp(entries[..|entries| - 1])
      case Err(e) => Err(e)
      case Ok(p) =>
        match entries[|entries| - 1]
        case Err(e) => Err(e)
        case Ok(cn) => AddCount(p, cn.0, cn.1)
  }

  /** The pick a ';'-separated segment describes: its ','-separated cube
      entries added up. */
  function PickOf(segment: string): Result<Pick> {
    AddUp(ParsedCubes(Split(segment, ',')))
  }

  /** The segments read as picks, one by one, in order. */
  function SegmentPicks(segments: seq<string>): (picks: seq<Result<Pick>>)
    ensures |picks| == |segments| && forall i :: 0 <= i < |segments| ==> picks[i] == PickOf(segments[i])
  {
    seq(|segments|, i requires 0 <= i < |segments| => PickOf(segments[i]))
  }

  /** collect() of a sequence of results: all the values, in order, or the
      error of the first result that failed. */
  function Collect<T>(rs: seq<Result<T>>): (r: Result<seq<T>>)
    ensures r.Ok? <==> forall i :: 0 <= i < |rs| ==> rs[i].Ok?
    ensures r.Ok? ==> |r.value| == |rs| && forall i :: 0 <= i < |rs| ==> rs[i] == Ok(r.value[i])
    ensures r.Err? ==> exists i :: 0 <= i < |rs| && rs[i] == Err(r.error) && forall j :: 0 <= j < i ==> rs[j].Ok?
  {
    if |rs| == 0 then Ok([])
    else
      var init := rs[..|rs| - 1];
      assert forall i :: 0 <= i < |init| ==> init[i] == rs[i];
      match Collect(init)
      case Err(e) => Err(e)
      case Ok(vs) =>
        match rs[|rs| - 1]
        case Err(e) => Err(e)
        case Ok(v) => Ok(vs + [v])
  }

  /** What read_line_into_game makes of a line. */
  function ParseGame(line: string): Result<Game> {
    var parts := Split(line, ':');
    if |parts| < 2 then Err(MissingData)
    else
      var idWords := SplitAsciiWhitespace(parts[0]);
      if |idWords| < 2 then Err(MissingId)
      else match Collect(SegmentPicks(Split(parts[1], ';')))
        case Err(e) => Err(e)
        case Ok(ps) =>
          match ParseUnsigned(idWords[1], U32Max)
          case None => Err(BadId)
          case Some(id) => Ok(Game(id, ps))
  }

  /** A failing prefix of entries decides the pick. */
  lemma {:induction false} AddUpErrorPersists(entries: seq<Result<(Colour, U8)>>, j: nat)
    requires j <= |entries| && AddUp(entries[..j]).Err?
    ensures AddUp(entries) == AddUp(entries[..j])
    decreases |entries| - j
  {
    if j < |entries| {
      assert entries[..j + 1][..j] == entries[..j];
      AddUpErrorPersists(entries, j + 1);
    } else {
      assert entries[..j] == entries;
    }
  }

  /** A failing prefix decides the collected result. */
  lemma {:induction false} CollectErrorPersists<T>(rs: seq<Result<T>>, k: nat)
    requires k <= |rs| && Collect(rs[..k]).Err?
    ensures Collect(rs) == Collect(rs[..k])
    decreases |rs| - k
  {
    if k < |rs| {
      assert rs[..k + 1][..k] == rs[..k];
      CollectErrorPersists(rs, k + 1);
    } else {
      assert rs[..k] == rs;
    }
  }

  /** read_line_into_game: splits at ':', takes the id word, then reads one
      pick per ';' segment. */
  method ReadLineIntoGame(line: string) returns (r: Result<Game>)
    ensures r == ParseGame(line)
  {
    var gameIdAndData := Split(line, ':');
    if |gameIdAndData| < 2 {
      return Err(MissingData);
    }
    var gameId := gameIdAndData[0];
    var gameData := gameIdAndData[1];
    var idWords := SplitAsciiWhitespace(gameId);
    if |idWords| < 2 {
      return Err(MissingId);
    }
    var picks := Split(gameData, ';');
    var parsedPicks: seq<Pick> := [];
    for k := 0 to |picks|
      invariant Collect(SegmentPicks(picks)[..k]) == Ok(parsedPicks)
    {
      assert SegmentPicks(picks)[..k + 1][..k] == SegmentPicks(picks)[..k];
      var pick := ReadPick(picks[k]);
      if pick.Err? {
        CollectErrorPersists(SegmentPicks(picks), k + 1);
        return Err(pick.error);
      }
      parsedPicks := parsedPicks + [pick.value];
    }
    assert SegmentPicks(picks)[..|picks|] == SegmentPicks(picks);
    var id := ParseUnsigned(idWords[1], U32Max);
    if id.None? {
      return Err(BadId);
    }
    return Ok(Game(id.value, parsedPicks));
  }

  /** The body of the loop over the segments in read_line_into_game: the
      counts of the ','-separated cube entries added into red_count,
      green_count and blue_count. */
  method ReadPick(pick: string) returns (r: Result<Pick>)
    ensures r == PickOf(pick)
  {
    var red: U8, green: U8, blue: U8 := 0, 0, 0;
    var cubes := Split(pick, ',');
    ghost var entries := ParsedCubes(cubes);
    for j := 0 to |cubes|
      invariant AddUp(entries[..j]) == Ok(Pick(red, green, blue))
    {
      assert entries[..j + 1][..j] == entries[..j];
      var added := ReadCube(cubes[j], red, green, blue);
      if added.Err? {
        AddUpErrorPersists(entries, j + 1);
        return added;
      }
      red, green, blue := added.value.red, added.value.green, added.value.blue;
    }
    assert entries[..|cubes|] == entries;
    return Ok(Pick(red, green, blue));
  }

  /** The body of the loop over the cube entries in read_line_into_game: the
      count word and the colour word of one entry, and the count added to
      that colour's total. */
  method ReadCube(cube: string, red: U8, green: U8, blue: U8) returns (r: Result<Pick>)
    ensures r == match ParseCube(cube)
                 case Err(e) => Err(e)
                 case Ok(cn) => AddCount(Pick(red, green, blue), cn.0, cn.1)
  {
    var cr := SplitAsciiWhitespace(cube);
    if |cr| == 0 {
      return Err(MissingCount);
    }
    var number := ParseUnsigned(cr[0], 255);
    if number.None? {
      return Err(BadCount);
    }
    if |cr| < 2 {
      return Err(MissingColour);
    }
    if cr[1] == "red" {
      if red + number.value > 255 {
        return Err(CountOverflow);
      }
      return Ok(Pick(red + number.value, green, blue));
    } else if cr[1] == "green" {
      if green + number.value > 255 {
        return Err(CountOverflow);
      }
      return Ok(Pick(red, green + number.value, blue));
    } else if cr[1] == "blue" {
      if blue + number.value > 255 {
        return Err(CountOverflow);
      }
      return Ok(Pick(red, green, blue + number.value));
    }
    return Err(UnknownColour);
  }

  /** The games of the lines, in order. */
  function LineGames(lines: seq<string>): (games: seq<Result<Game>>)
    ensures |games| == |lines| && forall i :: 0 <= i < |lines| ==> games[i] == ParseGame(lines[i])
  {
    seq(|lines|, i requires 0 <= i < |lines| => ParseGame(lines[i]))
  }

  /** read_file_into_problem: one game per line of the text, in order; the
      first line that cannot be read decides the error. */
  function ReadFileIntoProblem(fullData: string): (r: Result<Problem>)
    ensures r.Ok? <==> forall i :: 0 <= i < |Lines(fullData)| ==> ParseGame(Lines(fullData)[i]).Ok?
    ensures r.Ok? ==> |r.value.games| == |Lines(fullData)|
    ensures r.Ok? ==> forall i :: 0 <= i < |r.value.games| ==> Ok(r.value.games[i]) == ParseGame(Lines(fullData)[i])
  {
    match Collect(LineGames(Lines(fullData)))
    case Err(e) => Err(e)
    case Ok(games) => Ok(Problem(games))
  }

  /** The number of cubes of colour c in a pick. */
  function CountOf(p: Pick, c: Colour): U8 {
    match c
    case Red => p.red
    case Green => p.green
    case Blue => p.blue
  }

  /** The number of cubes of colour c the read entries name, all entries of
      that colour added up. */
  function Tally(entries: seq<Result<(Colour, U8)>>, c: Colour): nat {
    if |entries| == 0 then 0
    else Tally(entries[..|entries| - 1], c) +
         match entries[|entries| - 1]
         case Ok(cn) => if cn.0 == c then cn.1 else 0
         case Err(_) => 0
  }

  /** A longer list of entries names at least as many cubes of each colour. */
  lemma {:induction false} TallyMonotone(entries: seq<Result<(Colour, U8)>>, j: nat, c: Colour)
    requires j <= |entries|
    ensures Tally(entries[..j], c) <= Tally(entries, c)
    decreases |entries| - j
  {
    if j < |entries| {
      assert entries[..j + 1][..j] == entries[..j];
      TallyMonotone(entries, j + 1, c);
    } else {
      assert entries[..j] == entries;
    }
  }

  /** Adding up succeeds exactly when every entry was read and no colour adds
      up to more than 255; the pick then holds, for each colour, the sum of
      the counts the entries give it, which is 0 when none names it. */
  lemma {:induction false} AddUpTallies(entries: seq<Result<(Colour, U8)>>)
    ensures AddUp(entries).Ok? <==>
              (forall i :: 0 <= i < |entries| ==> entries[i].Ok?) &&
              Tally(entries, Red) <= 255 && Tally(entries, Green) <= 255 && Tally(entries, Blue) <= 255
    ensures AddUp(entries).Ok? ==>
              forall c :: CountOf(AddUp(entries).value, c) == Tally(entries, c)
  {
    if |entries| > 0 {
      var init, last := entries[..|entries| - 1], entries[|entries| - 1];
      AddUpTallies(init);
      assert forall i :: 0 <= i < |init| ==> init[i] == entries[i];
      TallyMonotone(entries, |entries| - 1, Red);
      TallyMonotone(entries, |entries| - 1, Green);
      TallyMonotone(entries, |entries| - 1, Blue);
      match AddUp(init) {
        case Err(e) =>
          assert AddUp(entries) == Err(e);
        case Ok(p) =>
          match last {
            case Err(e) =>
              assert AddUp(entries) == Err(e);
            case Ok(cn) =>
              assert AddUp(entries) == AddCount(p, cn.0, cn.1);
              assert forall c :: Tally(entries, c) == Tally(init, c) + (if cn.0 == c then cn.1 else 0);
          }
      }
    }
  }

  /** What a game read from a line is made of: the second word before the ':'
      as its id, and one pick per ';' segment of the text after it, in order;
      so it has at least one pick. */
  /** A line with a cube entry that does not read (a missing or
      non-numeric count, a missing or unknown colour) does not read. */
  lemma BadCubeFailsLine(line: string, i: nat, k: nat)
    requires |Split(line, ':')| >= 2
    requires var segments := Split(Split(line, ':')[1], ';');
             i < |segments| && k < |Split(segments[i], ',')| && ParseCube(Split(segments[i], ',')[k]).Err?
    ensures ParseGame(line).Err?
  {
    var segments := Split(Split(line, ':')[1], ';');
    var entries := ParsedCubes(Split(segments[i], ','));
    AddUpTallies(entries);
    assert !entries[k].Ok?;
    assert SegmentPicks(segments)[i].Err?;
  }

  lemma GameOfLine(line: string)
    requires ParseGame(line).Ok?
    ensures var parts := Split(line, ':');
            |parts| >= 2 &&
            Some(ParseGame(line).value.id) == ParseUnsigned(SplitAsciiWhitespace(parts[0])[1], U32Max) &&
            |ParseGame(line).value.picks| == |Split(parts[1], ';')| >= 1 &&
            forall i :: 0 <= i < |Split(parts[1], ';')| ==>
              Ok(ParseGame(line).value.picks[i]) == PickOf(Split(parts[1], ';')[i])
  {
  }

  /** Every game of a problem read from text has a pick, so the answer of
      part 2 is defined for it. */
  lemma ReadGamesHavePicks(fullData: string)
    requires ReadFileIntoProblem(fullData).Ok?
    ensures forall i :: 0 <= i < |ReadFileIntoProblem(fullData).value.games| ==>
              |ReadFileIntoProblem(fullData).value.games[i].picks| > 0
  {
    var games := ReadFileIntoProblem(fullData).value.games;
    forall i | 0 <= i < |games| ensures |games[i].picks| > 0 {
      GameOfLine(Lines(fullData)[i]);
    }
  }
}
