/** The roulette wheel: the fixed position-to-colour table and the last spun position. */
module Wheels {
  import opened Wrappers

  datatype Color = Red | Black | Green

  /** The value each member of the `Color` enum carries. */
  function Name(c: Color): string {
    match c
    case Red => "red"
    case Black => "black"
    case Green => "green"
  }

  const MaxPosition := 36

  /** The literal table; it does not follow a parity rule (10/11, 18/19 and
      28/29 share a colour). */
  const WheelPositions: map<int, Color> := map[
    0 := Green, 1 := Red, 2 := Black, 3 := Red, 4 := Black, 5 := Red,
    6 := Black, 7 := Red, 8 := Black, 9 := Red, 10 := Black, 11 := Black,
    12 := Red, 13 := Black, 14 := Red, 15 := Black, 16 := Red, 17 := Black,
    18 := Red, 19 := Red, 20 := Black, 21 := Red, 22 := Black, 23 := Red,
    24 := Black, 25 := Red, 26 := Black, 27 := Red, 28 := Black, 29 := Black,
    30 := Red, 31 := Black, 32 := Red, 33 := Black, 34 := Red, 35 := Black,
    36 := Red
  ]

  predicate IsPosition(p: int) {
    0 <= p <= MaxPosition
  }

  /** `WHEEL_POSITIONS[p]`; a key outside the table raises KeyError in the
      source, so callers must pass a position. */
  function ColorOf(p: int): Color
    requires IsPosition(p)
  {
    WheelPositions[p]
  }

  /** The table's keys are exactly the positions 0..36. */
  lemma TableDomain()
    ensures forall p :: p in WheelPositions <==> IsPosition(p)
  {
  }

  /** Position 0 is the only green slot. */
  lemma OnlyZeroIsGreen(p: int)
    requires IsPosition(p)
    ensures ColorOf(p) == Green <==> p == 0
  {
  }

  /** The pairs where the colours do not alternate. */
  lemma Irregularities()
    ensures ColorOf(10) == ColorOf(11) == Black
    ensures ColorOf(18) == ColorOf(19) == Red
    ensures ColorOf(28) == ColorOf(29) == Black
  {
  }

  /** The positions that carry colour c. */
  function PositionsOf(c: Color): set<int> {
    set p | 0 <= p <= 36 && WheelPositions[p] == c
  }

  /** The red and the black positions of the table, in increasing order. */
  const RedPositions: seq<int> := [1, 3, 5, 7, 9, 12, 14, 16, 18, 19, 21, 23, 25, 27, 30, 32, 34, 36]
  const BlackPositions: seq<int> := [2, 4, 6, 8, 10, 11, 13, 15, 17, 20, 22, 24, 26, 28, 29, 31, 33, 35]

  predicate Increasing(s: seq<int>) {
    forall i, j :: 0 <= i < j < |s| ==> s[i] < s[j]
  }

  /** A strictly increasing sequence has no repeated element. */
  lemma {:induction false} IncreasingElementCount(s: seq<int>)
    requires Increasing(s)
    ensures |set x | x in s| == |s|
    decreases |s|
  {
    if s != [] {
      var rest := s[1..];
      IncreasingElementCount(rest);
      assert s[0] !in rest;
      assert (set x | x in s) == {s[0]} + (set x | x in rest);
    }
  }

  lemma RedListed(p: int)
    requires p in RedPositions
    ensures IsPosition(p) && ColorOf(p) == Red
  {
  }

  lemma RedOnlyListed(p: int)
    requires IsPosition(p) && ColorOf(p) == Red
    ensures p in RedPositions
  {
  }

  /** A position is red exactly when it is listed as red. */
  lemma RedExactly(p: int)
    requires IsPosition(p)
    ensures ColorOf(p) == Red <==> p in RedPositions
  {
    if ColorOf(p) == Red {
      RedOnlyListed(p);
    }
    if p in RedPositions {
      RedListed(p);
    }
  }

  lemma BlackListed(p: int)
    requires p in BlackPositions
    ensures IsPosition(p) && ColorOf(p) == Black
  {
  }

  lemma BlackOnlyListed(p: int)
    requires IsPosition(p) && ColorOf(p) == Black
    ensures p in BlackPositions
  {
  }

  /** A position is black exactly when it is listed as black. */
  lemma BlackExactly(p: int)
    requires IsPosition(p)
    ensures ColorOf(p) == Black <==> p in BlackPositions
  {
    if ColorOf(p) == Black {
      BlackOnlyListed(p);
    }
    if p in BlackPositions {
      BlackListed(p);
    }
  }

  lemma RedSet()
    ensures PositionsOf(Red) == set x | x in RedPositions
  {
    forall p | IsPosition(p)
      ensures p in PositionsOf(Red) <==> p in RedPositions
    {
      RedExactly(p);
    }
    assert forall x :: x in RedPositions ==> IsPosition(x);
  }

  lemma BlackSet()
    ensures PositionsOf(Black) == set x | x in BlackPositions
  {
    forall p | IsPosition(p)
      ensures p in PositionsOf(Black) <==> p in BlackPositions
    {
      BlackExactly(p);
    }
    assert forall x :: x in BlackPositions ==> IsPosition(x);
  }

  /** 18 red, 18 black and 1 green slot. */
  lemma ColorCounts()
    ensures |PositionsOf(Red)| == 18 && |PositionsOf(Black)| == 18
    ensures PositionsOf(Green) == {0}
  {
    RedSet();
    IncreasingElementCount(RedPositions);
    BlackSet();
    IncreasingElementCount(BlackPositions);
    forall p | IsPosition(p)
      ensures p in PositionsOf(Green) <==> p == 0
    {
      OnlyZeroIsGreen(p);
    }
  }

  class Wheel {
    /** None until the first spin. */
    var ballPosition: Option<int>

    predicate HasSpun()
      reads this
    {
      ballPosition.Some? && IsPosition(ballPosition.value)
    }

    constructor()
      ensures ballPosition == None
    {
      ballPosition := None;
    }

    /** `randint(0, 36)`: some position, overwriting the previous one; no
        distribution is modelled. */
    method Spin()
      modifies this
      ensures HasSpun()
    {
      var p :| IsPosition(p);
      ballPosition := Some(p);
    }

    method GetBallPosition() returns (position: int, color: Color)
      requires HasSpun()
      ensures position == ballPosition.value && IsPosition(position)
      ensures color == ColorOf(position)
    {
      position := ballPosition.value;
      color := WheelPositions[position];
    }
  }
}
