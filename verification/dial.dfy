/** The dial of the current solver: `compute_unbounded_pos`, `apply_rotation`,
    `count_zero_crossings` and the password increment of `solve`, with the
    click-by-click walk they are compared against. */
module Dial {
  import opened Rotations

  const COUNTER_SIZE: int := 100
  const START_POSITION: int := 50

  predicate OnDial(p: int) {
    0 <= p < COUNTER_SIZE
  }

  function Abs(x: int): nat {
    if x < 0 then -x else x
  }

  /** The signed displacement of a rotation: Left turns down, Right turns up. */
  function Delta(rot: Rotation): int {
    match rot.dir
    case Left => -rot.steps
    case Right => rot.steps
  }

  /** `compute_unbounded_pos`: where the pointer would be on an endless scale. */
  function ComputeUnboundedPos(current: int, rot: Rotation): (u: int)
    ensures rot.steps >= 0 ==> Abs(u - current) == rot.steps
    ensures rot.steps > 0 ==> (current < u <==> rot.dir == Right)
  {
    current + Delta(rot)
  }

  /** `apply_rotation` (`rem_euclid`): the unique dial position congruent to `unbounded`. */
  function ApplyRotation(unbounded: int): (f: int)
    ensures OnDial(f)
    ensures (unbounded - f) % COUNTER_SIZE == 0
  {
    unbounded % COUNTER_SIZE
  }

  /** `count_zero_crossings` (`div_euclid`): the number of whole turns between
      `final` and `unbounded`. */
  function CountZeroCrossings(unbounded: int, final: int): (c: int)
    ensures (unbounded - final) % COUNTER_SIZE == 0 ==> c * COUNTER_SIZE == unbounded - final
  {
    (unbounded - final) / COUNTER_SIZE
  }

  /** With the wrapped position, `count_zero_crossings` is the floor of
      `unbounded / 100`: negative below zero, zero on the first turn. */
  lemma CrossingsAreFloor(unbounded: int)
    ensures var c := CountZeroCrossings(unbounded, ApplyRotation(unbounded));
      c * COUNTER_SIZE <= unbounded < c * COUNTER_SIZE + COUNTER_SIZE
  {
  }

  /** The pointer position and the password so far. */
  datatype State = State(position: int, password: nat)

  const Initial: State := State(START_POSITION, 0)

  /** What one rotation adds to the password in `solve`: one if it ends on 0;
      otherwise nothing if it started on 0; otherwise the absolute number of
      whole turns of the unbounded position. */
  function PasswordIncrement(previous: int, rot: Rotation): nat {
    var unbounded := ComputeUnboundedPos(previous, rot);
    var current := ApplyRotation(unbounded);
    if current == 0 then 1
    else if previous == 0 then 0
    else Abs(CountZeroCrossings(unbounded, current))
  }

  /** One iteration of the loop in `solve` for a parsed rotation. */
  function Step(d: State, rot: Rotation): (d': State)
    ensures OnDial(d'.position)
    ensures (d.position + Delta(rot) - d'.position) % COUNTER_SIZE == 0
    ensures d'.password >= d.password
    ensures d'.position == 0 ==> d'.password == d.password + 1
  {
    var unbounded := ComputeUnboundedPos(d.position, rot);
    State(ApplyRotation(unbounded), d.password + PasswordIncrement(d.position, rot))
  }

  /** The positions the pointer rests on after each rotation. */
  function Positions(p: int, rots: seq<Rotation>): (ps: seq<int>)
    ensures |ps| == |rots|
    ensures forall i :: 0 <= i < |ps| ==> OnDial(ps[i])
    ensures |ps| > 0 ==> (p + Delta(rots[0]) - ps[0]) % COUNTER_SIZE == 0
    ensures forall i :: 0 < i < |ps| ==> (ps[i - 1] + Delta(rots[i]) - ps[i]) % COUNTER_SIZE == 0
    decreases |rots|
  {
    if |rots| == 0 then []
    else
      var q := ApplyRotation(ComputeUnboundedPos(p, rots[0]));
      [q] + Positions(q, rots[1..])
  }

  /** Wrapping before adding does not change the position reached. */
  lemma WrapThenAdd(x: int, c: int)
    ensures (x % COUNTER_SIZE + c) % COUNTER_SIZE == (x + c) % COUNTER_SIZE
  {
    var k := x / COUNTER_SIZE;
    assert x + c == (x % COUNTER_SIZE + c) + k * COUNTER_SIZE;
  }

  /** One click of the dial. */
  function Tick(p: int, dir: Direction): int {
    match dir
    case Left => (p - 1) % COUNTER_SIZE
    case Right => (p + 1) % COUNTER_SIZE
  }

  /** The reference count: how many of `n` single clicks from `p` leave the
      pointer on 0 (the starting instant is not counted). */
  function WalkZeros(p: int, dir: Direction, n: nat): (z: nat)
    ensures z <= n
    decreases n
  {
    if n == 0 then 0
    else
      var q := Tick(p, dir);
      (if q == 0 then 1 else 0) + WalkZeros(q, dir, n - 1)
  }

  /** Turning right, the walk meets 0 once for every multiple of 100 in `(p, p + n]`. */
  lemma {:induction false} WalkZerosRight(p: int, n: nat)
    requires OnDial(p)
    ensures WalkZeros(p, Right, n) == (p + n) / COUNTER_SIZE
    decreases n
  {
    if n > 0 {
      WalkZerosRight(Tick(p, Right), n - 1);
    }
  }

  /** Turning left, the walk meets 0 once for every multiple of 100 in `[p - n, p)`. */
  lemma {:induction false} WalkZerosLeft(p: int, n: nat)
    requires OnDial(p)
    ensures WalkZeros(p, Left, n) == (if p == 0 then -1 else 0) - (p - n - 1) / COUNTER_SIZE
    decreases n
  {
    if n > 0 {
      var q := Tick(p, Left);
      WalkZerosLeft(q, n - 1);
      if p == 0 {
        assert q == COUNTER_SIZE - 1;
        assert q - (n - 1) - 1 == (p - n - 1) + COUNTER_SIZE;
      } else {
        assert q == p - 1;
        assert q - (n - 1) - 1 == p - n - 1;
      }
    }
  }

  /** The increment rule on a rightward unbounded position `u = p + n`, against
      the count of multiples of 100 in `(p, u]`. */
  lemma RightIncrementArith(p: int, n: nat)
    requires OnDial(p)
    requires var f := (p + n) % COUNTER_SIZE; (p != 0 && f != 0) || 1 <= n <= 99
    ensures var u := p + n; var f := u % COUNTER_SIZE;
      (if f == 0 then 1 else if p == 0 then 0 else Abs((u - f) / COUNTER_SIZE)) == u / COUNTER_SIZE
  {
    var u := p + n;
    var f := u % COUNTER_SIZE;
    assert u == (u / COUNTER_SIZE) * COUNTER_SIZE + f;
    if f == 0 {
      assert 1 <= u <= 198;
    } else if p == 0 {
      assert u < COUNTER_SIZE;
    } else {
      assert (u - f) / COUNTER_SIZE == u / COUNTER_SIZE;
    }
  }

  /** The increment rule on a leftward unbounded position `u = p - n`, against
      the count of multiples of 100 in `[u, p)`. */
  lemma LeftIncrementArith(p: int, n: nat)
    requires OnDial(p)
    requires var f := (p - n) % COUNTER_SIZE; (p != 0 && f != 0) || 1 <= n <= 99
    ensures var u := p - n; var f := u % COUNTER_SIZE;
      (if f == 0 then 1 else if p == 0 then 0 else Abs((u - f) / COUNTER_SIZE))
        == (if p == 0 then -1 else 0) - (p - n - 1) / COUNTER_SIZE
  {
    var u := p - n;
    var f := u % COUNTER_SIZE;
    assert u == (u / COUNTER_SIZE) * COUNTER_SIZE + f;
    if f == 0 {
      assert -99 <= u <= 98;
      assert u == 0;
    } else if p == 0 {
      assert -100 <= u - 1 <= -2;
    } else {
      assert (u - f) / COUNTER_SIZE == u / COUNTER_SIZE;
      assert (u - 1) / COUNTER_SIZE == u / COUNTER_SIZE;
      assert u / COUNTER_SIZE <= 0;
    }
  }

  /** A right turn of `n` clicks: the increment against the walk. */
  lemma IncrementMatchesWalkRight(p: int, n: nat)
    requires OnDial(p)
    requires var f := ApplyRotation(ComputeUnboundedPos(p, Rotation(Right, n)));
      (p != 0 && f != 0) || 1 <= n <= 99
    ensures PasswordIncrement(p, Rotation(Right, n)) == WalkZeros(p, Right, n)
  {
    var count := (p + n) / COUNTER_SIZE;
    assert PasswordIncrement(p, Rotation(Right, n)) == count by {
      var u := p + n;
      var f := u % COUNTER_SIZE;
      assert ComputeUnboundedPos(p, Rotation(Right, n)) == u;
      assert PasswordIncrement(p, Rotation(Right, n)) ==
        if f == 0 then 1 else if p == 0 then 0 else Abs((u - f) / COUNTER_SIZE);
      RightIncrementArith(p, n);
    }
    assert WalkZeros(p, Right, n) == count by {
      WalkZerosRight(p, n);
    }
  }

  /** A left turn of `n` clicks: the increment against the walk. */
  lemma IncrementMatchesWalkLeft(p: int, n: nat)
    requires OnDial(p)
    requires var f := ApplyRotation(ComputeUnboundedPos(p, Rotation(Left, n)));
      (p != 0 && f != 0) || 1 <= n <= 99
    ensures PasswordIncrement(p, Rotation(Left, n)) == WalkZeros(p, Left, n)
  {
    var count := (if p == 0 then -1 else 0) - (p - n - 1) / COUNTER_SIZE;
    assert PasswordIncrement(p, Rotation(Left, n)) == count by {
      var u := p - n;
      var f := u % COUNTER_SIZE;
      assert ComputeUnboundedPos(p, Rotation(Left, n)) == u;
      assert PasswordIncrement(p, Rotation(Left, n)) ==
        if f == 0 then 1 else if p == 0 then 0 else Abs((u - f) / COUNTER_SIZE);
      LeftIncrementArith(p, n);
    }
    assert WalkZeros(p, Left, n) == count by {
      WalkZerosLeft(p, n);
    }
  }

  /** The password increment equals the click-by-click count whenever neither
      end of the rotation is on 0, and whenever the rotation turns 1 to 99 clicks. */
  lemma IncrementMatchesWalk(p: int, rot: Rotation)
    requires OnDial(p) && rot.steps >= 0
    requires var f := ApplyRotation(ComputeUnboundedPos(p, rot));
      (p != 0 && f != 0) || 1 <= rot.steps <= 99
    ensures PasswordIncrement(p, rot) == WalkZeros(p, rot.dir, rot.steps)
  {
    var n: nat := rot.steps;
    if rot.dir == Right {
      assert rot == Rotation(Right, n);
      IncrementMatchesWalkRight(p, n);
    } else {
      assert rot == Rotation(Left, n);
      IncrementMatchesWalkLeft(p, n);
    }
  }

  /** A rotation of at least one click that ends on 0 meets 0 at least once
      on the way: its last click lands there. */
  lemma LandingWalkMeetsZero(p: int, rot: Rotation)
    requires OnDial(p) && rot.steps > 0
    requires ApplyRotation(ComputeUnboundedPos(p, rot)) == 0
    ensures WalkZeros(p, rot.dir, rot.steps) >= 1
  {
    var n: nat := rot.steps;
    if rot.dir == Right {
      assert (p + n) % COUNTER_SIZE == 0 && p + n >= 1 by {
        assert ComputeUnboundedPos(p, rot) == p + n;
      }
      assert (p + n) / COUNTER_SIZE >= 1 by {
        assert p + n == ((p + n) / COUNTER_SIZE) * COUNTER_SIZE;
      }
      WalkZerosRight(p, n);
    } else {
      assert (p - n) % COUNTER_SIZE == 0 by {
        assert ComputeUnboundedPos(p, rot) == p - n;
      }
      assert (if p == 0 then -1 else 0) - (p - n - 1) / COUNTER_SIZE >= 1 by {
        var k := (p - n) / COUNTER_SIZE;
        assert p - n == k * COUNTER_SIZE;
        assert k <= 0 && (p == 0 ==> k <= -1);
        assert (p - n - 1) / COUNTER_SIZE == k - 1;
      }
      WalkZerosLeft(p, n);
    }
  }

  /** For every rotation of at least one click the increment never exceeds
      the click-by-click count: where the two differ, the code undercounts. */
  lemma IncrementAtMostWalk(p: int, rot: Rotation)
    requires OnDial(p) && rot.steps > 0
    ensures PasswordIncrement(p, rot) <= WalkZeros(p, rot.dir, rot.steps)
  {
    var f := ApplyRotation(ComputeUnboundedPos(p, rot));
    if f == 0 {
      LandingWalkMeetsZero(p, rot);
    } else if p != 0 {
      IncrementMatchesWalk(p, rot);
    }
  }

  /** Outside those two cases the increment is not the click count: `L250`
      from 50 ends on 0 and adds 1, but the walk meets 0 three times. */
  lemma LandingAfterTurnsUndercounts()
    ensures PasswordIncrement(50, Rotation(Left, 250)) == 1
    ensures WalkZeros(50, Left, 250) == 3
  {
    WalkZerosLeft(50, 250);
  }

  /** `R250` from 0 adds nothing, but the walk meets 0 twice. */
  lemma StartOnZeroUndercounts()
    ensures PasswordIncrement(0, Rotation(Right, 250)) == 0
    ensures WalkZeros(0, Right, 250) == 2
  {
    WalkZerosRight(0, 250);
  }

  /** `R0` from 0 adds one, although the dial never moves. */
  lemma NullTurnOnZeroOvercounts()
    ensures PasswordIncrement(0, Rotation(Right, 0)) == 1
    ensures WalkZeros(0, Right, 0) == 0
  {
  }

  /** A rotation that ends on 0 always adds exactly one. */
  lemma LandingAddsOne(p: int, rot: Rotation)
    requires ApplyRotation(ComputeUnboundedPos(p, rot)) == 0
    ensures PasswordIncrement(p, rot) == 1
  {
  }

  /** The unit test's scenario: from 10, `R15`, `L5`, `R90` visit 25, 20, 10. */
  lemma ApplyRotationExample()
    ensures ApplyRotation(ComputeUnboundedPos(10, Rotation(Right, 15))) == 25
    ensures ApplyRotation(ComputeUnboundedPos(25, Rotation(Left, 5))) == 20
    ensures ApplyRotation(ComputeUnboundedPos(20, Rotation(Right, 90))) == 10
  {
  }
}
