/**
 * Day 1: a safe dial with positions 0..99 that starts at 50 and is turned
 * left or right by a number of clicks.  Part 1 counts the rotations that
 * end on 0; part 2 counts every click that leaves the dial on 0, using a
 * closed formula per rotation.
 */
module Day01 {

  const DIAL_SIZE: int := 100
  const START_POS: int := 50

  /** One input line, already split into direction letter and distance. */
  datatype Line = Blank | Rotation(direction: char, distance: int)

  /** The source panics on a direction letter other than 'L' or 'R'. */
  datatype DialError = InvalidDirection(direction: char)

  datatype Outcome = Count(value: int) | Failure(error: DialError)

  predicate ValidDirection(c: char) {
    c == 'L' || c == 'R'
  }

  predicate IsBad(line: Line) {
    line.Rotation? && !ValidDirection(line.direction)
  }

  predicate WellFormed(lines: seq<Line>) {
    forall i :: 0 <= i < |lines| ==> !IsBad(lines[i])
  }

  /** Every rotation moves the dial by a positive number of clicks. */
  predicate PositiveDistances(lines: seq<Line>) {
    forall i :: 0 <= i < |lines| && lines[i].Rotation? ==> lines[i].distance > 0
  }

  predicate NonNegativeDistances(lines: seq<Line>) {
    forall i :: 0 <= i < |lines| && lines[i].Rotation? ==> lines[i].distance >= 0
  }

  /** Rust's `/` on integers: the quotient truncated toward zero. */
  function Quot(a: int, b: int): int
    requires b > 0
  {
    if a >= 0 then a / b else -((-a) / b)
  }

  /** The position after one rotation; `rem_euclid` is Dafny's `%`. */
  function Rotate(position: int, direction: char, distance: int): (p: int)
    requires ValidDirection(direction)
    ensures 0 <= p < DIAL_SIZE
    ensures direction == 'R' ==> (position + distance - p) % DIAL_SIZE == 0
    ensures direction == 'L' ==> (position - distance - p) % DIAL_SIZE == 0
  {
    if direction == 'L' then (position - distance) % DIAL_SIZE
    else (position + distance) % DIAL_SIZE
  }

  /** The dial position once every line has been applied. */
  function FinalPosition(lines: seq<Line>): (p: int)
    requires WellFormed(lines)
    ensures 0 <= p < DIAL_SIZE
  {
    if lines == [] then START_POS
    else
      var p := FinalPosition(lines[..|lines| - 1]);
      match lines[|lines| - 1]
      case Blank => p
      case Rotation(dir, dist) => Rotate(p, dir, dist)
  }

  /** The position reached by each rotation, in order; blank lines add nothing. */
  function Landings(lines: seq<Line>): (t: seq<int>)
    requires WellFormed(lines)
    ensures forall i :: 0 <= i < |t| ==> 0 <= t[i] < DIAL_SIZE
  {
    if lines == [] then []
    else
      var prefix := lines[..|lines| - 1];
      Landings(prefix) +
        match lines[|lines| - 1]
        case Blank => []
        case Rotation(dir, dist) => [Rotate(FinalPosition(prefix), dir, dist)]
  }

  /** The positions after each single click of a rotation of `distance` clicks. */
  function Clicks(position: int, direction: char, distance: nat): (t: seq<int>)
    requires ValidDirection(direction)
    ensures |t| == distance
  {
    seq(distance, k requires 0 <= k < distance => Rotate(position, direction, k + 1))
  }

  /** The positions after every click of every rotation, in order. */
  function ClickTrace(lines: seq<Line>): seq<int>
    requires WellFormed(lines) && NonNegativeDistances(lines)
  {
    if lines == [] then []
    else
      var prefix := lines[..|lines| - 1];
      ClickTrace(prefix) +
        match lines[|lines| - 1]
        case Blank => []
        case Rotation(dir, dist) => Clicks(FinalPosition(prefix), dir, dist)
  }

  /**
   * The source's closed formula for the zeros met while rotating from
   * `position` by `distance` clicks.
   */
  function Crossings(position: int, direction: char, distance: int): int
    requires ValidDirection(direction)
  {
    if direction == 'L' then
      if position == 0 then Quot(distance, DIAL_SIZE)
      else if distance >= position then 1 + Quot(distance - position, DIAL_SIZE)
      else 0
    else
      Quot(position + distance, DIAL_SIZE) - Quot(position, DIAL_SIZE)
  }

  /** The part 2 answer: the closed formula summed over the rotations. */
  function CrossingTotal(lines: seq<Line>): int
    requires WellFormed(lines)
  {
    if lines == [] then 0
    else
      var prefix := lines[..|lines| - 1];
      CrossingTotal(prefix) +
        match lines[|lines| - 1]
        case Blank => 0
        case Rotation(dir, dist) => Crossings(FinalPosition(prefix), dir, dist)
  }

  /** The answer of part 1: how many rotations leave the dial on 0. */
  method CountZeros(lines: seq<Line>) returns (r: Outcome)
    ensures r.Failure? <==> !WellFormed(lines)
    ensures r.Failure? ==> exists i :: 0 <= i < |lines| && IsBad(lines[i]) && WellFormed(lines[..i])
                                       && r.error == InvalidDirection(lines[i].direction)
    ensures r.Count? ==> WellFormed(lines) && r.value == multiset(Landings(lines))[0]
  {
    var position := START_POS;
    var zeroCount := 0;
    for i := 0 to |lines|
      invariant WellFormed(lines[..i])
      invariant position == FinalPosition(lines[..i])
      invariant zeroCount == multiset(Landings(lines[..i]))[0]
    {
      match lines[i]
      case Blank =>
        BlankStep(lines, i);
      case Rotation(direction, distance) =>
        if !ValidDirection(direction) {
          return Failure(InvalidDirection(direction));
        }
        ghost var before := position;
        position := Rotate(position, direction, distance);
        if position == 0 {
          zeroCount := zeroCount + 1;
        }
        RotationStep(lines, i, before, position);
    }
    assert lines[..|lines|] == lines;
    r := Count(zeroCount);
  }

  /** The answer of part 2: the zeros met during all rotations, by the closed formula. */
  method CountZerosDuringRotations(lines: seq<Line>) returns (r: Outcome)
    ensures r.Failure? <==> !WellFormed(lines)
    ensures r.Failure? ==> exists i :: 0 <= i < |lines| && IsBad(lines[i]) && WellFormed(lines[..i])
                                       && r.error == InvalidDirection(lines[i].direction)
    ensures r.Count? ==> WellFormed(lines) && r.value == CrossingTotal(lines)
    ensures r.Count? && NonNegativeDistances(lines) ==> r.value == multiset(ClickTrace(lines))[0]
  {
    var position := START_POS;
    var zeroCount := 0;
    for i := 0 to |lines|
      invariant WellFormed(lines[..i])
      invariant position == FinalPosition(lines[..i])
      invariant zeroCount == CrossingTotal(lines[..i])
    {
      match lines[i]
      case Blank =>
        BlankStep(lines, i);
      case Rotation(direction, distance) =>
        if !ValidDirection(direction) {
          return Failure(InvalidDirection(direction));
        }
        ghost var before := position;
        zeroCount := zeroCount + Crossings(position, direction, distance);
        position := Rotate(position, direction, distance);
        RotationStep(lines, i, before, position);
    }
    assert lines[..|lines|] == lines;
    r := Count(zeroCount);
    if NonNegativeDistances(lines) {
      CrossingTotalCountsClicks(lines);
    }
  }

  /** A blank line leaves the position and both counts as they were. */
  lemma BlankStep(lines: seq<Line>, i: nat)
    requires i < |lines| && lines[i].Blank? && WellFormed(lines[..i])
    ensures WellFormed(lines[..i + 1])
    ensures FinalPosition(lines[..i + 1]) == FinalPosition(lines[..i])
    ensures Landings(lines[..i + 1]) == Landings(lines[..i])
    ensures CrossingTotal(lines[..i + 1]) == CrossingTotal(lines[..i])
  {
    assert lines[..i + 1][..i] == lines[..i];
  }

  /** A rotation moves the dial, lands once and adds its crossings. */
  lemma RotationStep(lines: seq<Line>, i: nat, before: int, after: int)
    requires i < |lines| && lines[i].Rotation? && ValidDirection(lines[i].direction)
    requires WellFormed(lines[..i]) && before == FinalPosition(lines[..i])
    requires after == Rotate(before, lines[i].direction, lines[i].distance)
    ensures WellFormed(lines[..i + 1])
    ensures FinalPosition(lines[..i + 1]) == after
    ensures multiset(Landings(lines[..i + 1]))[0] == multiset(Landings(lines[..i]))[0] + (if after == 0 then 1 else 0)
    ensures CrossingTotal(lines[..i + 1])
         == CrossingTotal(lines[..i]) + Crossings(before, lines[i].direction, lines[i].distance)
  {
    PrefixExtends(lines, i);
    LandingsExtends(lines, i, before, after);
    CrossingTotalExtends(lines, i, before);
  }

  lemma PrefixExtends(lines: seq<Line>, i: nat)
    requires i < |lines| && !IsBad(lines[i]) && WellFormed(lines[..i])
    ensures WellFormed(lines[..i + 1]) && lines[..i + 1][..i] == lines[..i]
  {
    assert lines[..i + 1][..i] == lines[..i];
  }

  lemma LandingsExtends(lines: seq<Line>, i: nat, before: int, after: int)
    requires i < |lines| && lines[i].Rotation? && ValidDirection(lines[i].direction)
    requires WellFormed(lines[..i]) && before == FinalPosition(lines[..i])
    requires after == Rotate(before, lines[i].direction, lines[i].distance)
    ensures WellFormed(lines[..i + 1])
    ensures FinalPosition(lines[..i + 1]) == after
    ensures multiset(Landings(lines[..i + 1]))[0] == multiset(Landings(lines[..i]))[0] + (if after == 0 then 1 else 0)
  {
    PrefixExtends(lines, i);
    assert Landings(lines[..i + 1]) == Landings(lines[..i]) + [after];
  }

  lemma CrossingTotalExtends(lines: seq<Line>, i: nat, before: int)
    requires i < |lines| && lines[i].Rotation? && ValidDirection(lines[i].direction)
    requires WellFormed(lines[..i]) && before == FinalPosition(lines[..i])
    ensures WellFormed(lines[..i + 1])
    ensures CrossingTotal(lines[..i + 1])
         == CrossingTotal(lines[..i]) + Crossings(before, lines[i].direction, lines[i].distance)
  {
    PrefixExtends(lines, i);
  }

  /** One more click adds one to the count exactly when it leaves the dial on 0. */
  lemma DivStep(a: nat)
    ensures (a + 1) / DIAL_SIZE == a / DIAL_SIZE + (if (a + 1) % DIAL_SIZE == 0 then 1 else 0)
  {
  }

  lemma {:induction false} CrossingsStep(position: int, direction: char, distance: nat)
    requires 0 <= position < DIAL_SIZE && ValidDirection(direction)
    ensures Crossings(position, direction, distance + 1)
         == Crossings(position, direction, distance)
            + (if Rotate(position, direction, distance + 1) == 0 then 1 else 0)
  {
    if direction == 'R' {
      DivStep(position + distance);
    } else if position == 0 {
      DivStep(distance);
    } else if distance >= position {
      DivStep(distance - position);
    }
  }

  /** A rotation one click longer passes through the same positions and one more. */
  lemma ClicksSnoc(position: int, direction: char, distance: nat)
    requires ValidDirection(direction)
    ensures Clicks(position, direction, distance + 1)
         == Clicks(position, direction, distance) + [Rotate(position, direction, distance + 1)]
  {
  }

  /**
   * The closed formula counts exactly the clicks of one rotation that
   * leave the dial on 0.
   */
  lemma {:induction false} CrossingsCountClicks(position: int, direction: char, distance: nat)
    requires 0 <= position < DIAL_SIZE && ValidDirection(direction)
    ensures Crossings(position, direction, distance) == multiset(Clicks(position, direction, distance))[0]
  {
    if distance > 0 {
      CrossingsCountClicks(position, direction, distance - 1);
      CrossingsStep(position, direction, distance - 1);
      ClicksSnoc(position, direction, distance - 1);
    }
  }

  /** Part 2's formula equals the number of clicks, over all rotations, that end on 0. */
  lemma {:induction false} CrossingTotalCountsClicks(lines: seq<Line>)
    requires WellFormed(lines) && NonNegativeDistances(lines)
    ensures CrossingTotal(lines) == multiset(ClickTrace(lines))[0]
  {
    if lines != [] {
      var prefix := lines[..|lines| - 1];
      CrossingTotalCountsClicks(prefix);
      match lines[|lines| - 1]
      case Blank =>
      case Rotation(dir, dist) =>
        CrossingsCountClicks(FinalPosition(prefix), dir, dist);
    }
  }

  /** With positive distances, every rotation that ends on 0 is counted by part 2 too. */
  lemma {:induction false} CrossingTotalAtLeastLandings(lines: seq<Line>)
    requires WellFormed(lines) && PositiveDistances(lines)
    ensures CrossingTotal(lines) >= multiset(Landings(lines))[0]
  {
    if lines != [] {
      var prefix := lines[..|lines| - 1];
      CrossingTotalAtLeastLandings(prefix);
      match lines[|lines| - 1]
      case Blank =>
      case Rotation(dir, dist) =>
        var p := FinalPosition(prefix);
        CrossingsCountClicks(p, dir, dist);
        var clicks := Clicks(p, dir, dist);
        assert clicks == clicks[..dist - 1] + [Rotate(p, dir, dist)];
    }
  }

  function Example(): seq<Line> {
    [Rotation('L', 68), Rotation('L', 30), Rotation('R', 48), Rotation('L', 5), Rotation('R', 60),
     Rotation('L', 55), Rotation('L', 1), Rotation('L', 99), Rotation('R', 14), Rotation('L', 82)]
  }

  /**
   * The positions the worked example passes through, rotation by rotation:
   * it is left on 0 after the third, sixth and eighth rotations, the part 1
   * answer 3.
   */
  lemma ExamplePositions()
    ensures WellFormed(Example())
    ensures FinalPosition(Example()[..1]) == 82 && FinalPosition(Example()[..2]) == 52
    ensures FinalPosition(Example()[..3]) == 0 && FinalPosition(Example()[..4]) == 95
    ensures FinalPosition(Example()[..5]) == 55 && FinalPosition(Example()[..6]) == 0
    ensures FinalPosition(Example()[..7]) == 99 && FinalPosition(Example()[..8]) == 0
    ensures FinalPosition(Example()[..9]) == 14 && FinalPosition(Example()) == 32
  {
    var e := Example();
    assert e[..1][..0] == [];
    assert e[..2][..1] == e[..1];
    assert e[..3][..2] == e[..2];
    assert e[..4][..3] == e[..3];
    assert e[..5][..4] == e[..4];
    assert e[..6][..5] == e[..5];
    assert e[..7][..6] == e[..6];
    assert e[..8][..7] == e[..7];
    assert e[..9][..8] == e[..8];
    assert e[..|e| - 1] == e[..9];
  }

  /** The worked example: the dial meets 0 six times while turning. */
  lemma ExampleCrossings()
    ensures WellFormed(Example())
    ensures CrossingTotal(Example()) == 6
  {
    ExamplePositions();
    var e := Example();
    assert e[..1][..0] == [];
    assert e[..2][..1] == e[..1];
    assert e[..3][..2] == e[..2];
    assert e[..4][..3] == e[..3];
    assert e[..5][..4] == e[..4];
    assert e[..6][..5] == e[..5];
    assert e[..7][..6] == e[..6];
    assert e[..8][..7] == e[..7];
    assert e[..9][..8] == e[..8];
    assert e[..|e| - 1] == e[..9];
    assert CrossingTotal(e[..3]) == 2;
    assert CrossingTotal(e[..6]) == 4;
  }

  /** When every line is a rotation, the landings are the positions after each prefix. */
  lemma {:induction false} LandingsOfRotations(lines: seq<Line>, positions: seq<int>)
    requires WellFormed(lines) && |positions| == |lines|
    requires forall k :: 0 <= k < |lines| ==> lines[k].Rotation?
    requires forall k :: 0 <= k < |lines| ==> FinalPosition(lines[..k + 1]) == positions[k]
    ensures Landings(lines) == positions
  {
    if lines != [] {
      var n := |lines| - 1;
      var prefix := lines[..n];
      forall k | 0 <= k < n
        ensures FinalPosition(prefix[..k + 1]) == positions[..n][k]
      {
        assert prefix[..k + 1] == lines[..k + 1];
      }
      LandingsOfRotations(prefix, positions[..n]);
      assert lines[..n + 1] == lines;
      assert positions == positions[..n] + [positions[n]];
    }
  }

  /** The worked example is left on 0 by three rotations: part 1's answer 3. */
  lemma ExampleLandings()
    ensures WellFormed(Example())
    ensures Landings(Example()) == [82, 52, 0, 95, 55, 0, 99, 0, 14, 32]
    ensures multiset(Landings(Example()))[0] == 3
  {
    ExamplePositions();
    var e := Example();
    assert e[..10] == e;
    var positions := [FinalPosition(e[..1]), FinalPosition(e[..2]), FinalPosition(e[..3]), FinalPosition(e[..4]),
      FinalPosition(e[..5]), FinalPosition(e[..6]), FinalPosition(e[..7]), FinalPosition(e[..8]),
      FinalPosition(e[..9]), FinalPosition(e[..10])];
    LandingsOfRotations(e, positions);
    ExampleZeros();
  }

  /** Three of the example's landings are 0. */
  lemma ExampleZeros()
    ensures multiset([82, 52, 0, 95, 55, 0, 99, 0, 14, 32])[0] == 3
  {
    assert multiset([82, 52])[0] == 0;
    assert multiset([82, 52, 0])[0] == 1;
    assert multiset([82, 52, 0, 95, 55])[0] == 1;
    assert multiset([82, 52, 0, 95, 55, 0])[0] == 2;
    assert multiset([82, 52, 0, 95, 55, 0, 99])[0] == 2;
    assert multiset([82, 52, 0, 95, 55, 0, 99, 0])[0] == 3;
  }
}
