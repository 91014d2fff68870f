/** Day 2: the cube-game records, their validity predicates and the two
    puzzle answers computed from them. */
module Day2 {

  /** The values of Rust's u8 and u32. */
  type U8 = n: nat | n <= 255
  type U32 = n: nat | n <= 0xffff_ffff

  /** The largest of a non-empty list of counts, as Iterator::max. */
  function MaxOf(xs: seq<U8>): (m: U8)
    requires |xs| > 0
    ensures m in xs
    ensures forall i :: 0 <= i < |xs| ==> xs[i] <= m
  {
    if |xs| == 1 then xs[0]
    else
      var rest := MaxOf(xs[1..]);
      if xs[0] <= rest then rest else xs[0]
  }

  /** One handful of cubes shown during a game. */
  datatype Pick = Pick(red: U8, green: U8, blue: U8) {

    /** Pick::is_valid_for: the handful fits the bag, colour by colour. */
    function IsValidFor(redMax: U8, greenMax: U8, blueMax: U8): (valid: bool)
      ensures valid <==> red <= redMax && green <= greenMax && blue <= blueMax
    {
      if redMax < red then false
      else if greenMax < green then false
      else if blueMax < blue then false
      else true
    }
  }

  /** Iterator::all over the picks. */
  function AllValidFor(picks: seq<Pick>, redMax: U8, greenMax: U8, blueMax: U8): (valid: bool)
    ensures valid <==> forall i :: 0 <= i < |picks| ==> picks[i].IsValidFor(redMax, greenMax, blueMax)
  {
    |picks| == 0 || (picks[0].IsValidFor(redMax, greenMax, blueMax) && AllValidFor(picks[1..], redMax, greenMax, blueMax))
  }

  /** The red, green and blue counts of the picks, in order. */
  function Reds(picks: seq<Pick>): (xs: seq<U8>)
    ensures |xs| == |picks| && forall i :: 0 <= i < |picks| ==> xs[i] == picks[i].red
  {
    seq(|picks|, i requires 0 <= i < |picks| => picks[i].red)
  }

  function Greens(picks: seq<Pick>): (xs: seq<U8>)
    ensures |xs| == |picks| && forall i :: 0 <= i < |picks| ==> xs[i] == picks[i].green
  {
    seq(|picks|, i requires 0 <= i < |picks| => picks[i].green)
  }

  function Blues(picks: seq<Pick>): (xs: seq<U8>)
    ensures |xs| == |picks| && forall i :: 0 <= i < |picks| ==> xs[i] == picks[i].blue
  {
    seq(|picks|, i requires 0 <= i < |picks| => picks[i].blue)
  }

  /** A game: its id and the picks shown, in order. */
  datatype Game = Game(id: U32, picks: seq<Pick>) {

    /** Game::is_valid_for: every pick fits the bag, which a game without
        picks does vacuously. */
    function IsValidFor(redMax: U8, greenMax: U8, blueMax: U8): (valid: bool)
      ensures valid <==> forall i :: 0 <= i < |picks| ==>
                picks[i].red <= redMax && picks[i].green <= greenMax && picks[i].blue <= blueMax
    {
      AllValidFor(picks, redMax, greenMax, blueMax)
    }

    /** Game::get_min_cubes_needed: the largest count of each colour over
        the picks; the expect on max panics when there is no pick. */
    function MinCubesNeeded(): (m: (U8, U8, U8))
      requires |picks| > 0
      ensures exists i :: 0 <= i < |picks| && picks[i].red == m.0
      ensures exists i :: 0 <= i < |picks| && picks[i].green == m.1
      ensures exists i :: 0 <= i < |picks| && picks[i].blue == m.2
      ensures forall i :: 0 <= i < |picks| ==> picks[i].red <= m.0 && picks[i].green <= m.1 && picks[i].blue <= m.2
    {
      (MaxOf(Reds(picks)), MaxOf(Greens(picks)), MaxOf(Blues(picks)))
    }

    /** The product of the three minimum counts, widened to u64. */
    function Power(): (p: nat)
      requires |picks| > 0
      ensures p <= PowerMax
    {
      var m := MinCubesNeeded();
      Product(m.0, m.1, m.2)
    }
  }

  /** The largest power a game can have: 255 cubes of each colour. */
  const PowerMax: nat := 16581375

  /** m.0 as u64 * m.1 as u64 * m.2 as u64, which cannot overflow. */
  function Product(a: U8, b: U8, c: U8): (p: nat)
    ensures p <= PowerMax
  {
    ProductBound(a, b, c);
    a * b * c
  }

  lemma ProductBound(a: nat, b: nat, c: nat)
    requires a <= 255 && b <= 255 && c <= 255
    ensures a * b * c <= PowerMax
  {
    MulMonotone(a, b, 255);
    var ab := a * b;
    MulMonotone(ab, c, 255);
  }

  lemma MulMonotone(x: nat, y: nat, k: nat)
    requires y <= k
    ensures x * y <= x * k
  {
  }

  /** The sum of the ids of the games. */
  function IdTotal(games: seq<Game>): nat {
    if |games| == 0 then 0 else games[0].id + IdTotal(games[1..])
  }

  /** filter(is_valid_for).map(id).sum(). */
  function SumValidIds(games: seq<Game>, redMax: U8, greenMax: U8, blueMax: U8): (sum: nat)
    ensures sum <= IdTotal(games)
    ensures (forall i :: 0 <= i < |games| ==> games[i].IsValidFor(redMax, greenMax, blueMax)) ==> sum == IdTotal(games)
    ensures (forall i :: 0 <= i < |games| ==> !games[i].IsValidFor(redMax, greenMax, blueMax)) ==> sum == 0
  {
    if |games| == 0 then 0
    else (if games[0].IsValidFor(redMax, greenMax, blueMax) then games[0].id else 0)
         + SumValidIds(games[1..], redMax, greenMax, blueMax)
  }

  /** map(get_min_cubes_needed).map(product).sum(). */
  function SumPowers(games: seq<Game>): (sum: nat)
    requires forall i :: 0 <= i < |games| ==> |games[i].picks| > 0
    ensures sum <= PowerMax * |games|
  {
    if |games| == 0 then 0 else games[0].Power() + SumPowers(games[1..])
  }

  /** The whole puzzle input: one game per line. */
  datatype Problem = Problem(games: seq<Game>) {

    /** Problem::get_solution_part1: the sum of the ids of the games the bag
        allows. */
    function SolutionPart1(redMax: U8, greenMax: U8, blueMax: U8): (sum: nat)
      ensures sum <= IdTotal(games)
      ensures (forall i :: 0 <= i < |games| ==> games[i].IsValidFor(redMax, greenMax, blueMax)) ==> sum == IdTotal(games)
      ensures (forall i :: 0 <= i < |games| ==> !games[i].IsValidFor(redMax, greenMax, blueMax)) ==> sum == 0
    {
      SumValidIds(games, redMax, greenMax, blueMax)
    }

    /** Problem::get_solution_part2: the sum of the games' powers. */
    function SolutionPart2(): (sum: nat)
      requires forall i :: 0 <= i < |games| ==> |games[i].picks| > 0
      ensures sum <= PowerMax * |games|
    {
      SumPowers(games)
    }
  }

  /** A bag that is at least as large in every colour allows every game the
      smaller bag allows. */
  lemma ValidityMonotone(g: Game, r: U8, gr: U8, b: U8, r': U8, gr': U8, b': U8)
    requires r <= r' && gr <= gr' && b <= b'
    ensures g.IsValidFor(r, gr, b) ==> g.IsValidFor(r', gr', b')
  {
  }

  /** The minimum cube counts are the smallest bag a game is valid for: the
      game is valid for a bag exactly when the bag holds at least that many
      cubes of each colour. */
  lemma MinCubesLeastBag(g: Game, r: U8, gr: U8, b: U8)
    requires |g.picks| > 0
    ensures var m := g.MinCubesNeeded();
            g.IsValidFor(r, gr, b) <==> m.0 <= r && m.1 <= gr && m.2 <= b
  {
    var m := g.MinCubesNeeded();
    if g.IsValidFor(r, gr, b) {
      var i :| 0 <= i < |g.picks| && g.picks[i].red == m.0;
      var j :| 0 <= j < |g.picks| && g.picks[j].green == m.1;
      var k :| 0 <= k < |g.picks| && g.picks[k].blue == m.2;
      assert g.picks[i].red <= r && g.picks[j].green <= gr && g.picks[k].blue <= b;
    }
  }

  /** A game is valid for its own minimum cube counts. */
  lemma ValidForOwnMinimum(g: Game)
    requires |g.picks| > 0
    ensures var m := g.MinCubesNeeded(); g.IsValidFor(m.0, m.1, m.2)
  {
    var m := g.MinCubesNeeded();
    MinCubesLeastBag(g, m.0, m.1, m.2);
  }

  /** The answer of part 1 adds up over a list of games split in two. */
  lemma {:induction false} SumValidIdsAppend(a: seq<Game>, b: seq<Game>, r: U8, gr: U8, bl: U8)
    ensures SumValidIds(a + b, r, gr, bl) == SumValidIds(a, r, gr, bl) + SumValidIds(b, r, gr, bl)
  {
    if |a| > 0 {
      assert (a + b)[1..] == a[1..] + b;
      SumValidIdsAppend(a[1..], b, r, gr, bl);
    } else {
      assert a + b == b;
    }
  }

  /** A larger bag never lowers the answer of part 1. */
  lemma {:induction false} SumValidIdsMonotone(games: seq<Game>, r: U8, gr: U8, b: U8, r': U8, gr': U8, b': U8)
    requires r <= r' && gr <= gr' && b <= b'
    ensures SumValidIds(games, r, gr, b) <= SumValidIds(games, r', gr', b')
  {
    if |games| > 0 {
      ValidityMonotone(games[0], r, gr, b, r', gr', b');
      SumValidIdsMonotone(games[1..], r, gr, b, r', gr', b');
    }
  }

  /** The answer of part 2 adds up over a list of games split in two. */
  lemma {:induction false} SumPowersAppend(a: seq<Game>, b: seq<Game>)
    requires forall i :: 0 <= i < |a| ==> |a[i].picks| > 0
    requires forall i :: 0 <= i < |b| ==> |b[i].picks| > 0
    ensures forall i :: 0 <= i < |a + b| ==> |(a + b)[i].picks| > 0
    ensures SumPowers(a + b) == SumPowers(a) + SumPowers(b)
  {
    if |a| > 0 {
      assert (a + b)[1..] == a[1..] + b;
      SumPowersAppend(a[1..], b);
    } else {
      assert a + b == b;
    }
  }
}
