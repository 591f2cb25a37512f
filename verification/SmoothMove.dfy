/** `VisualUtils::SmoothMove`, the position part, over the reals (mod/src/helpers.cpp,
    mod/src/helpers.hpp). What the code calls a magnitude is the squared distance. */
module SmoothMove {
  const MIN_SMOOTH_SPEED: real := 0.1
  const TARGET_CATCHUP_TIME: real := 0.2

  datatype Vec = Vec(x: real, y: real, z: real)

  // products and quotients are named so that a proof can leave them alone
  function Times(a: real, b: real): real { a * b }
  function Ratio(a: real, b: real): real requires b != 0.0 { a / b }

  function Max(a: real, b: real): real { if a < b then b else a }
  function Min(a: real, b: real): real { if a < b then a else b }

  function Minus(a: Vec, b: Vec): Vec {
    Vec(a.x - b.x, a.y - b.y, a.z - b.z)
  }

  function Plus(a: Vec, b: Vec): Vec {
    Vec(a.x + b.x, a.y + b.y, a.z + b.z)
  }

  function Scale(a: Vec, k: real): Vec {
    Vec(Times(a.x, k), Times(a.y, k), Times(a.z, k))
  }

  function Dot(a: Vec, b: Vec): real {
    Times(a.x, b.x) + Times(a.y, b.y) + Times(a.z, b.z)
  }

  /** The squared distance. */
  function Gap(from: Vec, to: Vec): real {
    Dot(Minus(to, from), Minus(to, from))
  }

  /** The point a fraction of the way along a segment. */
  function Along(from: Vec, to: Vec, fraction: real): Vec {
    Plus(from, Scale(Minus(to, from), fraction))
  }

  /** The speed of a call that still has a gap to close. */
  function Speed(gap: real, closingSpeed: real): real {
    Max(closingSpeed, Max(MIN_SMOOTH_SPEED, Ratio(gap, TARGET_CATCHUP_TIME)))
  }

  /** How much of the gap one call closes, and the part of the way that it is. */
  function Closed(gap: real, timeDelta: real, closingSpeed: real): real {
    Min(Times(timeDelta, Speed(gap, closingSpeed)), gap)
  }

  function Part(gap: real, timeDelta: real, closingSpeed: real): real
    requires gap > 0.0
  {
    Ratio(Closed(gap, timeDelta, closingSpeed), gap)
  }

  /** A position and the closing speed. */
  datatype State = State(at: Vec, speed: real)

  function Move(s: State, to: Vec, timeDelta: real): State {
    var gap := Gap(s.at, to);
    if gap > 0.0 then
      State(Along(s.at, to, Part(gap, timeDelta, s.speed)),
            if Closed(gap, timeDelta, s.speed) == gap then 0.0 else Speed(gap, s.speed))
    else State(s.at, 0.0)
  }

  class Vector3f {
    var x: real
    var y: real
    var z: real

    function Value(): Vec
      reads this
    {
      Vec(x, y, z)
    }
  }

  /** The source's steps: the position is changed through its pointer, the new speed is returned. */
  method Smooth(position: Vector3f, target: Vector3f, timeDelta: real, closingSpeed: real) returns (speed: real)
    modifies position
    ensures State(position.Value(), speed)
            == Move(State(old(position.Value()), closingSpeed), old(target.Value()), timeDelta)
  {
    hide Times, Ratio, Max, Min, Dot, Scale;
    speed := closingSpeed;
    var posDiff := Minus(target.Value(), position.Value());
    var posDiffMag := Dot(posDiff, posDiff);
    if posDiffMag > 0.0 {
      var diffSpeed := Max(MIN_SMOOTH_SPEED, Ratio(posDiffMag, TARGET_CATCHUP_TIME));
      speed := Max(speed, diffSpeed);
      var maxMove := Times(timeDelta, speed);
      var moveDist := Min(maxMove, posDiffMag);
      posDiff := Scale(posDiff, Ratio(moveDist, posDiffMag));
      position.x := position.x + posDiff.x;
      position.y := position.y + posDiff.y;
      position.z := position.z + posDiff.z;
      if moveDist == posDiffMag {
        speed := 0.0;
      }
    } else {
      speed := 0.0;
    }
  }

  // ---------------------------------------------------------------- squares

  function Square(x: real): real { Times(x, x) }

  lemma TimesPositive(a: real, b: real)
    requires a > 0.0 && b > 0.0
    ensures Times(a, b) > 0.0
  {
  }

  lemma TimesNegative(a: real, b: real)
    requires a < 0.0 && b < 0.0
    ensures Times(a, b) > 0.0
  {
  }

  lemma TimesZero(a: real, b: real)
    requires a == 0.0
    ensures Times(a, b) == 0.0
  {
  }

  lemma SquareSign(x: real)
    ensures Square(x) >= 0.0
    ensures Square(x) > 0.0 <==> x != 0.0
  {
    hide Times;
    if x < 0.0 {
      TimesNegative(x, x);
    } else if x > 0.0 {
      TimesPositive(x, x);
    } else {
      TimesZero(x, x);
    }
  }

  /** There is no gap exactly at the target. */
  lemma GapIsZero(from: Vec, to: Vec)
    ensures Gap(from, to) >= 0.0
    ensures Gap(from, to) > 0.0 <==> from != to
  {
    var d := Minus(to, from);
    SquareSign(d.x);
    SquareSign(d.y);
    SquareSign(d.z);
    hide Times;
  }

  lemma SquareOfProduct(a: real, b: real)
    ensures Square(Times(a, b)) == Times(Square(b), Square(a))
  {
  }

  lemma LeftOver(a: real, b: real, f: real)
    ensures b - (a + Times(b - a, f)) == Times(b - a, 1.0 - f)
  {
  }

  lemma Distribute(g: real, x: real, y: real, z: real)
    ensures Times(g, x) + Times(g, y) + Times(g, z) == Times(g, x + y + z)
  {
  }

  /** What is left after a part of the way. */
  lemma GapAlong(from: Vec, to: Vec, f: real)
    ensures Gap(Along(from, to, f), to) == Times(Square(1.0 - f), Gap(from, to))
  {
    hide Times;
    var d, left := Minus(to, from), Minus(to, Along(from, to, f));
    LeftOver(from.x, to.x, f);
    LeftOver(from.y, to.y, f);
    LeftOver(from.z, to.z, f);
    assert left == Scale(d, 1.0 - f);
    SquareOfProduct(d.x, 1.0 - f);
    SquareOfProduct(d.y, 1.0 - f);
    SquareOfProduct(d.z, 1.0 - f);
    Distribute(Square(1.0 - f), Square(d.x), Square(d.y), Square(d.z));
  }

  // ---------------------------------------------------------------- one call

  lemma RatioOf(a: real, b: real)
    requires b > 0.0
    ensures Times(Ratio(a, b), b) == a
    ensures 0.0 <= a <= b ==> 0.0 <= Ratio(a, b) <= 1.0
    ensures Ratio(a, b) == 1.0 <==> a == b
  {
    var r := Ratio(a, b);
    assert r * b == a;
  }

  lemma TimesMonotone(k: real, a: real, b: real)
    requires k >= 0.0 && a <= b
    ensures Times(k, a) <= Times(k, b)
  {
    assert k * (b - a) >= 0.0;
  }

  /** At least a tenth of a unit per second, at least the gap per fifth of a second, and never slower. */
  lemma SpeedIsEnough(gap: real, timeDelta: real, closingSpeed: real)
    requires gap > 0.0 && timeDelta >= 0.0
    ensures var v := Speed(gap, closingSpeed);
            && v >= closingSpeed && v >= MIN_SMOOTH_SPEED
            && Times(timeDelta, v) >= Times(timeDelta, MIN_SMOOTH_SPEED) >= 0.0
            && (timeDelta >= TARGET_CATCHUP_TIME ==> Times(timeDelta, v) >= gap)
  {
    var v, catchUp := Speed(gap, closingSpeed), Ratio(gap, TARGET_CATCHUP_TIME);
    TimesMonotone(timeDelta, MIN_SMOOTH_SPEED, v);
    TimesMonotone(timeDelta, 0.0, MIN_SMOOTH_SPEED);
    TimesZero(0.0, timeDelta);
    TimesCommutes(timeDelta, 0.0);
    TimesMonotone(timeDelta, catchUp, v);
    RatioOf(gap, TARGET_CATCHUP_TIME);
    if timeDelta >= TARGET_CATCHUP_TIME {
      RatioPositive(gap, TARGET_CATCHUP_TIME);
      TimesMonotone(catchUp, TARGET_CATCHUP_TIME, timeDelta);
      TimesCommutes(timeDelta, catchUp);
    }
    hide Times, Ratio;
  }

  lemma TimesCommutes(a: real, b: real)
    ensures Times(a, b) == Times(b, a)
  {
  }

  lemma RatioPositive(a: real, b: real)
    requires a > 0.0 && b > 0.0
    ensures Ratio(a, b) > 0.0
  {
  }

  /** The gap after a part of the way that closes an amount: what is left is at most the rest. */
  lemma RestOfGap(f: real, gap: real)
    requires 0.0 <= f <= 1.0 && gap >= 0.0
    ensures 0.0 <= Times(Square(1.0 - f), gap) <= gap - Times(f, gap)
  {
    var rest := Times(1.0 - f, gap);
    assert rest == gap - Times(f, gap);
    assert rest >= 0.0;
    assert Times(Square(1.0 - f), gap) == Times(1.0 - f, rest);
    TimesMonotone(rest, 1.0 - f, 1.0);
    TimesMonotone(rest, 0.0, 1.0 - f);
    TimesCommutes(rest, 1.0 - f);
    hide Times;
  }

  /** One call stays on the segment; it arrives exactly when the time step times the speed covers the
      squared distance, and then the speed drops to 0. Until then the speed does not decrease, and the
      squared distance shrinks by at least a tenth of the time step. */
  lemma OneCall(s: State, to: Vec, timeDelta: real)
    requires timeDelta > 0.0 && s.at != to
    ensures var gap, r := Gap(s.at, to), Move(s, to, timeDelta);
            && gap > 0.0 && 0.0 < Part(gap, timeDelta, s.speed) <= 1.0
            && r.at == Along(s.at, to, Part(gap, timeDelta, s.speed))
            && (r.at == to <==> Times(timeDelta, Speed(gap, s.speed)) >= gap)
            && (r.at == to ==> r.speed == 0.0)
            && (r.at != to ==> r.speed >= s.speed && r.speed >= MIN_SMOOTH_SPEED)
            && Gap(r.at, to) <= gap - Closed(gap, timeDelta, s.speed)
            && (r.at != to ==> Gap(r.at, to) <= gap - Times(timeDelta, MIN_SMOOTH_SPEED))
            && (timeDelta >= TARGET_CATCHUP_TIME ==> r.at == to)
  {
    GapIsZero(s.at, to);
    var gap, r := Gap(s.at, to), Move(s, to, timeDelta);
    SpeedIsEnough(gap, timeDelta, s.speed);
    var closed, f := Closed(gap, timeDelta, s.speed), Part(gap, timeDelta, s.speed);
    TimesPositive(timeDelta, MIN_SMOOTH_SPEED);
    assert 0.0 < closed <= gap;
    RatioOf(closed, gap);
    RatioPositive(closed, gap);
    GapAlong(s.at, to, f);
    RestOfGap(f, gap);
    GapIsZero(r.at, to);
    ArrivedAt(s.at, to, f, gap);
    hide Times, Ratio, Dot, Scale, Minus, Plus, Square, Speed;
  }

  lemma ArrivedAt(from: Vec, to: Vec, f: real, gap: real)
    requires gap == Gap(from, to) > 0.0
    ensures f == 1.0 <==> Along(from, to, f) == to
  {
    GapAlong(from, to, f);
    GapIsZero(Along(from, to, f), to);
    SquareSign(1.0 - f);
    if f != 1.0 {
      TimesPositive(Square(1.0 - f), gap);
    } else {
      TimesZero(Square(1.0 - f), gap);
    }
    hide *;
  }

  // ---------------------------------------------------------------- many calls

  /** Calls with these time steps and a fixed target. */
  function Run(s: State, to: Vec, steps: seq<real>): State
    decreases |steps|
  {
    if steps == [] then s else Run(Move(s, to, steps[0]), to, steps[1..])
  }

  /** The part of the way those calls cover together. */
  function PartOfRun(s: State, to: Vec, steps: seq<real>): real
    decreases |steps|
  {
    if steps == [] then 0.0
    else if Gap(s.at, to) <= 0.0 then 1.0
    else
      var f := Part(Gap(s.at, to), steps[0], s.speed);
      f + Times(1.0 - f, PartOfRun(Move(s, to, steps[0]), to, steps[1..]))
  }

  predicate AtLeast(steps: seq<real>, least: real) {
    forall i :: 0 <= i < |steps| ==> steps[i] >= least
  }

  lemma MoveAtTarget(s: State, to: Vec, timeDelta: real)
    requires s.at == to
    ensures Move(s, to, timeDelta) == State(to, 0.0)
  {
    GapIsZero(s.at, to);
    hide Gap;
  }

  lemma {:induction false} StaysAtTarget(s: State, to: Vec, steps: seq<real>)
    requires s.at == to
    ensures Run(s, to, steps).at == to
    ensures steps != [] || s.speed == 0.0 ==> Run(s, to, steps).speed == 0.0
    decreases |steps|
  {
    if steps != [] {
      MoveAtTarget(s, to, steps[0]);
      StaysAtTarget(State(to, 0.0), to, steps[1..]);
    }
  }

  /** The time of those calls. */
  function Total(steps: seq<real>): real {
    if steps == [] then 0.0 else steps[0] + Total(steps[1..])
  }

  predicate Positive(steps: seq<real>) {
    forall i :: 0 <= i < |steps| ==> steps[i] > 0.0
  }

  /** A call that does not arrive closes at least what any lower speed would have closed in its time. */
  lemma CallCloses(s: State, to: Vec, timeDelta: real, v: real)
    requires timeDelta > 0.0 && s.at != to && v <= Speed(Gap(s.at, to), s.speed)
    ensures var next := Move(s, to, timeDelta);
            next.at != to ==> next.speed >= v && Gap(next.at, to) <= Gap(s.at, to) - Times(timeDelta, v)
  {
    var gap := Gap(s.at, to);
    OneCall(s, to, timeDelta);
    TimesMonotone(timeDelta, v, Speed(gap, s.speed));
    hide Times, Gap, Speed, Along, Part;
  }

  lemma TimeLeft(step: real, rest: real, v: real)
    ensures Times(step + rest, v) == Times(step, v) + Times(rest, v)
  {
  }

  /** At a speed that is never below `v`, calls in whose time `v` closes the gap arrive. */
  lemma {:induction false} ArrivesAtSpeed(s: State, to: Vec, steps: seq<real>, v: real)
    requires Positive(steps) && steps != []
    requires s.at != to ==> v <= Speed(Gap(s.at, to), s.speed)
    requires Times(Total(steps), v) >= Gap(s.at, to)
    ensures Run(s, to, steps) == State(to, 0.0)
    decreases |steps|
  {
    var next, rest := Move(s, to, steps[0]), steps[1..];
    assert Run(s, to, steps) == Run(next, to, rest);
    if s.at == to {
      StaysAtTarget(s, to, steps);
    } else {
      OneCall(s, to, steps[0]);
      if next.at == to {
        StaysAtTarget(next, to, rest);
      } else {
        CallCloses(s, to, steps[0], v);
        TimeLeft(steps[0], Total(rest), v);
        GapIsZero(next.at, to);
        SpeedIsEnough(Gap(next.at, to), 0.0, next.speed);
        TimesZero(0.0, v);
        hide Times, Gap, Speed, Move, Run;
        ArrivesAtSpeed(next, to, rest, v);
      }
    }
  }

  /** Whatever the distance and the speed at the start, calls that together take the catch-up time reach
      the target exactly and leave the speed at 0. */
  lemma CatchesUpInTime(s: State, to: Vec, steps: seq<real>)
    requires Positive(steps) && steps != [] && Total(steps) >= TARGET_CATCHUP_TIME
    ensures Run(s, to, steps) == State(to, 0.0)
  {
    GapIsZero(s.at, to);
    if s.at == to {
      StaysAtTarget(s, to, steps);
    } else {
      var gap := Gap(s.at, to);
      SpeedIsEnough(gap, Total(steps), s.speed);
      ArrivesAtSpeed(s, to, steps, Speed(gap, s.speed));
    }
  }

  /** The speed in numbers: five times the squared distance, but at least a tenth and never less than before. */
  lemma SpeedInNumbers(gap: real, closingSpeed: real)
    requires gap > 0.0
    ensures var v := Speed(gap, closingSpeed);
            && v >= 5.0 * gap && v >= 0.1 && v >= closingSpeed
            && (v == 5.0 * gap || v == 0.1 || v == closingSpeed)
  {
  }

  /** From rest a single call arrives from a distance whose square is 0.02 or more exactly if it takes the
      catch-up time, and from nearer exactly if it takes ten times the square. */
  lemma OneCallFromRest(at: Vec, to: Vec, timeDelta: real)
    requires timeDelta > 0.0 && at != to
    ensures var gap, r := Gap(at, to), Move(State(at, 0.0), to, timeDelta);
            && (gap >= 0.02 ==> (r.at == to <==> timeDelta >= 0.2) && (r.at != to ==> r.speed == 5.0 * gap))
            && (gap < 0.02 ==> (r.at == to <==> timeDelta >= 10.0 * gap) && (r.at != to ==> r.speed == 0.1))
  {
    var gap := Gap(at, to);
    OneCall(State(at, 0.0), to, timeDelta);
    SpeedInNumbers(gap, 0.0);
    var v := Speed(gap, 0.0);
    CoversFromRest(gap, timeDelta, v);
    hide Times, Gap, Speed, Along, Part;
  }

  lemma CoversFromRest(gap: real, timeDelta: real, v: real)
    requires gap > 0.0
    ensures v == 5.0 * gap ==> (Times(timeDelta, v) >= gap <==> timeDelta >= 0.2)
    ensures v == 0.1 ==> (Times(timeDelta, v) >= gap <==> timeDelta >= 10.0 * gap)
  {
    if v == 5.0 * gap {
      assert Times(timeDelta, v) - gap == 5.0 * gap * (timeDelta - 0.2);
      if timeDelta >= 0.2 {
        assert gap * (timeDelta - 0.2) >= 0.0;
      } else {
        assert gap * (0.2 - timeDelta) > 0.0;
      }
    }
  }

  /** A call leaves at least what twice its way would. */
  lemma CallLeaves(s: State, to: Vec, timeDelta: real, v: real)
    requires timeDelta > 0.0 && s.at != to && Speed(Gap(s.at, to), s.speed) <= v
    requires 2.0 * Times(timeDelta, v) < Gap(s.at, to)
    ensures var next, gap := Move(s, to, timeDelta), Gap(s.at, to);
            && next.at != to && next.speed <= v
            && gap - 2.0 * Times(timeDelta, v) <= Gap(next.at, to) <= gap
  {
    var gap := Gap(s.at, to);
    var speed := Speed(gap, s.speed);
    OneCall(s, to, timeDelta);
    TimesMonotone(timeDelta, speed, v);
    SpeedIsEnough(gap, timeDelta, s.speed);
    var closed, f := Closed(gap, timeDelta, s.speed), Part(gap, timeDelta, s.speed);
    assert closed == Times(timeDelta, speed);
    RatioOf(closed, gap);
    GapAlong(s.at, to, f);
    HalfOfTwice(f, gap);
    hide Times, Gap, Speed, Along, Square, Ratio;
  }

  lemma HalfOfTwice(f: real, gap: real)
    requires gap >= 0.0
    ensures Times(Square(1.0 - f), gap) >= gap - 2.0 * Times(f, gap)
  {
    assert Times(Square(1.0 - f), gap) == gap - 2.0 * Times(f, gap) + f * f * gap;
    assert f * f >= 0.0;
  }

  /** The speed is no more than it has to be: calls that together would not cover half the squared distance
      at the first speed do not arrive. */
  lemma {:induction false} NotYetThere(s: State, to: Vec, steps: seq<real>, v: real)
    requires Positive(steps) && s.at != to && Speed(Gap(s.at, to), s.speed) <= v
    requires 2.0 * Times(Total(steps), v) < Gap(s.at, to)
    ensures Run(s, to, steps).at != to
    decreases |steps|
  {
    if steps != [] {
      var next, rest := Move(s, to, steps[0]), steps[1..];
      TimeLeft(steps[0], Total(rest), v);
      GapIsZero(s.at, to);
      SpeedIsEnough(Gap(s.at, to), 0.0, s.speed);
      TotalIsPositive(rest, v);
      hide Times, Gap, Speed, Move;
      CallLeaves(s, to, steps[0], v);
      SpeedOfLess(Gap(s.at, to), Gap(next.at, to), s.speed, next.speed, v);
      NotYetThere(next, to, rest, v);
    }
  }

  lemma {:induction false} TotalIsPositive(steps: seq<real>, v: real)
    requires Positive(steps) && v >= 0.0
    ensures Total(steps) >= 0.0 && Times(Total(steps), v) >= 0.0
  {
    if steps != [] {
      TotalIsPositive(steps[1..], v);
    }
    assert Total(steps) * v >= 0.0;
  }

  lemma SpeedOfLess(gap: real, less: real, speed: real, next: real, v: real)
    requires less <= gap && Speed(gap, speed) <= v && next <= v
    ensures Speed(less, next) <= v
  {
  }

  /** From rest, and from a distance whose square is 0.02 or more, the target is not reached before half the
      catch-up time. */
  lemma NotBeforeHalfTime(at: Vec, to: Vec, steps: seq<real>)
    requires Positive(steps) && Gap(at, to) >= 0.02 && Total(steps) < 0.1
    ensures Run(State(at, 0.0), to, steps).at != to
  {
    var gap := Gap(at, to);
    GapIsZero(at, to);
    SpeedInNumbers(gap, 0.0);
    assert 2.0 * Times(Total(steps), 5.0 * gap) < gap by {
      assert gap - 2.0 * (Total(steps) * (5.0 * gap)) == 10.0 * (gap * (0.1 - Total(steps)));
      assert gap * (0.1 - Total(steps)) > 0.0;
    }
    hide Gap, Times, Run;
    NotYetThere(State(at, 0.0), to, steps, 5.0 * gap);
  }

  /** With time steps of at least `least`, as many calls as the squared distance holds tenths of such a
      step reach the target exactly and leave the speed at 0. */
  lemma {:induction false} ArrivesInTime(s: State, to: Vec, steps: seq<real>, least: real)
    requires least > 0.0 && AtLeast(steps, least) && steps != []
    requires Times(|steps| as real, Times(least, MIN_SMOOTH_SPEED)) >= Gap(s.at, to)
    ensures Run(s, to, steps) == State(to, 0.0)
    decreases |steps|
  {
    var next, rest := Move(s, to, steps[0]), steps[1..];
    if s.at == to {
      StaysAtTarget(s, to, steps);
    } else {
      OneCall(s, to, steps[0]);
      if next.at == to {
        StaysAtTarget(next, to, rest);
      } else {
        var m := Times(least, MIN_SMOOTH_SPEED);
        LongerStep(steps[0], least);
        OneFewer(|rest|, m);
        GapIsZero(next.at, to);
        assert Times(|rest| as real, m) >= Gap(next.at, to);
        NoneLeft(|rest|, m);
        ArrivesInTime(next, to, rest, least);
      }
    }
  }

  lemma LongerStep(step: real, least: real)
    requires step >= least
    ensures Times(step, MIN_SMOOTH_SPEED) >= Times(least, MIN_SMOOTH_SPEED)
  {
  }

  lemma OneFewer(n: nat, m: real)
    ensures Times((n + 1) as real, m) == Times(n as real, m) + m
  {
    assert (n + 1) as real == n as real + 1.0;
  }

  lemma NoneLeft(n: nat, m: real)
    ensures n == 0 ==> Times(n as real, m) == 0.0
  {
  }

  lemma Compose(from: Vec, to: Vec, f: real, g: real)
    ensures Along(Along(from, to, f), to, g) == Along(from, to, f + Times(1.0 - f, g))
  {
    ComposeAxis(from.x, to.x, f, g);
    ComposeAxis(from.y, to.y, f, g);
    ComposeAxis(from.z, to.z, f, g);
    hide Times;
  }

  lemma ComposeAxis(a: real, b: real, f: real, g: real)
    ensures var c := a + Times(b - a, f); c + Times(b - c, g) == a + Times(b - a, f + Times(1.0 - f, g))
  {
  }

  lemma PartWithin(f: real, g: real)
    requires 0.0 <= f <= 1.0 && 0.0 <= g <= 1.0
    ensures f <= f + Times(1.0 - f, g) <= 1.0
  {
    TimesMonotone(1.0 - f, g, 1.0);
    TimesMonotone(1.0 - f, 0.0, g);
  }

  lemma AlongEnds(from: Vec, to: Vec, f: real)
    ensures Along(from, to, 0.0) == from
    ensures Along(to, to, f) == to
  {
    assert Times(to.x - from.x, 0.0) == 0.0 && Times(to.y - from.y, 0.0) == 0.0 && Times(to.z - from.z, 0.0) == 0.0;
  }

  /** The position never leaves the segment from where it started to the target. */
  lemma {:induction false} RunStaysOnSegment(s: State, to: Vec, steps: seq<real>)
    requires Positive(steps)
    ensures 0.0 <= PartOfRun(s, to, steps) <= 1.0
    ensures Run(s, to, steps).at == Along(s.at, to, PartOfRun(s, to, steps))
    decreases |steps|
  {
    AlongEnds(s.at, to, 1.0);
    if steps != [] {
      GapIsZero(s.at, to);
      if s.at == to {
        StaysAtTarget(s, to, steps);
        assert PartOfRun(s, to, steps) == 1.0;
      } else {
        var next, rest := Move(s, to, steps[0]), steps[1..];
        OneCall(s, to, steps[0]);
        RunStaysOnSegment(next, to, rest);
        var f, g := Part(Gap(s.at, to), steps[0], s.speed), PartOfRun(next, to, rest);
        PartWithin(f, g);
        Compose(s.at, to, f, g);
        hide Times, Along, Move, Part, Gap;
      }
    }
  }
}
