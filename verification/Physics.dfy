/** The car model of internal/race/physics.go over real numbers. */
module Physics {

  datatype Vec3 = Vec3(x: real, y: real, z: real)

  datatype CarSpec = CarSpec(maxAccel: real, maxSteerRate: real, maxSpeed: real)

  datatype Input = Input(throttle: real, brake: real, steering: real)

  /** Where a car is and how it moves: the three fields that Step writes. */
  datatype Motion = Motion(position: Vec3, velocity: real, heading: real)

  /** Go's package math as far as the car model calls it. */
  datatype Env = Env(cos: real -> real, sin: real -> real, hypot: (real, real) -> real, pi: real)

  ghost predicate EnvOk(e: Env) {
    && e.pi > 0.0
    && (forall a :: TrigAt(e, a))
    && (forall x, z :: HypotAt(e, x, z))
  }

  ghost predicate TrigAt(e: Env, a: real) {
    e.cos(a) * e.cos(a) + e.sin(a) * e.sin(a) == 1.0
  }

  ghost predicate HypotAt(e: Env, x: real, z: real) {
    e.hypot(x, z) >= 0.0 && e.hypot(x, z) * e.hypot(x, z) == x * x + z * z
  }

  const DEFAULT_SPEC := CarSpec(12.0, 1.5, 30.0)

  function Abs(x: real): real {
    if x < 0.0 then -x else x
  }

  function Clamp(v: real, lo: real, hi: real): real {
    if v < lo then lo else if v > hi then hi else v
  }

  // ----- angles -----

  /** How many whole turns x exceeds pi by, rounded up: the measure of both loops of wrapAngle. */
  function Turns(pi: real, x: real): nat
    requires pi > 0.0
  {
    if x > pi then
      var q := (x - pi) / (2.0 * pi);
      assert q > 0.0;
      q.Floor + 1
    else 0
  }

  lemma TurnsDrop(pi: real, x: real)
    requires pi > 0.0 && x > pi
    ensures Turns(pi, x - 2.0 * pi) < Turns(pi, x)
  {
    var t := 2.0 * pi;
    var q := (x - pi) / t;
    QuotientUnique(x - pi - t, t, q - 1.0);
    assert x - t - pi == x - pi - t;
  }

  lemma QuotientUnique(x: real, t: real, q: real)
    requires t > 0.0 && q * t == x
    ensures x / t == q
  {
    var p := x / t;
    assert (p - q) * t == 0.0;
  }

  function WrapDown(pi: real, a: real): real
    requires pi > 0.0
    decreases Turns(pi, a)
  {
    if a > pi then TurnsDrop(pi, a); WrapDown(pi, a - 2.0 * pi) else a
  }

  function WrapUp(pi: real, a: real): real
    requires pi > 0.0
    decreases Turns(pi, -a)
  {
    if a < -pi then TurnsDrop(pi, -a); WrapUp(pi, a + 2.0 * pi) else a
  }

  function Wrap(pi: real, a: real): real
    requires pi > 0.0
  {
    WrapUp(pi, WrapDown(pi, a))
  }

  /** a and b differ by q whole turns. */
  predicate TurnsApart(pi: real, a: real, b: real, q: int) {
    b == a + 2.0 * pi * q as real
  }

  ghost predicate Congruent(pi: real, a: real, b: real) {
    exists q: int :: TurnsApart(pi, a, b, q)
  }

  lemma CongruentStep(pi: real, a: real, b: real, c: real, d: int)
    requires TurnsApart(pi, a, b, d) && Congruent(pi, b, c)
    ensures Congruent(pi, a, c)
  {
    var q: int :| TurnsApart(pi, b, c, q);
    assert (q + d) as real == q as real + d as real;
    assert TurnsApart(pi, a, c, q + d);
  }

  lemma CongruentShift(pi: real, a: real, b: real, x: real)
    requires Congruent(pi, a, b)
    ensures Congruent(pi, a + x, b + x)
  {
    var q: int :| TurnsApart(pi, a, b, q);
    assert TurnsApart(pi, a + x, b + x, q);
  }

  lemma {:induction false} WrapDownCongruent(pi: real, a: real)
    requires pi > 0.0
    ensures WrapDown(pi, a) <= pi && Congruent(pi, a, WrapDown(pi, a))
    ensures a >= -pi ==> WrapDown(pi, a) >= -pi
    decreases Turns(pi, a)
  {
    if a > pi {
      TurnsDrop(pi, a);
      WrapDownCongruent(pi, a - 2.0 * pi);
      assert TurnsApart(pi, a, a - 2.0 * pi, -1);
      CongruentStep(pi, a, a - 2.0 * pi, WrapDown(pi, a), -1);
    } else {
      assert TurnsApart(pi, a, a, 0);
    }
  }

  lemma {:induction false} WrapUpCongruent(pi: real, a: real)
    requires pi > 0.0 && a <= pi
    ensures -pi <= WrapUp(pi, a) <= pi && Congruent(pi, a, WrapUp(pi, a))
    decreases Turns(pi, -a)
  {
    if a < -pi {
      TurnsDrop(pi, -a);
      WrapUpCongruent(pi, a + 2.0 * pi);
      assert TurnsApart(pi, a, a + 2.0 * pi, 1);
      CongruentStep(pi, a, a + 2.0 * pi, WrapUp(pi, a), 1);
    } else {
      assert TurnsApart(pi, a, a, 0);
    }
  }

  /** Wrapping lands in [-pi, pi], moves by whole turns only, and leaves a wrapped angle alone. */
  lemma WrapMeaning(pi: real, a: real)
    requires pi > 0.0
    ensures -pi <= Wrap(pi, a) <= pi
    ensures Congruent(pi, a, Wrap(pi, a))
    ensures -pi <= a <= pi ==> Wrap(pi, a) == a
  {
    WrapDownCongruent(pi, a);
    var d := WrapDown(pi, a);
    WrapUpCongruent(pi, d);
    var q: int :| TurnsApart(pi, a, d, q);
    CongruentStep(pi, a, d, Wrap(pi, a), q);
  }

  /** wrapAngle: the two loops of the source, with the number of turns left as their measure. */
  method WrapAngle(pi: real, angle: real) returns (a: real)
    requires pi > 0.0
    ensures a == Wrap(pi, angle)
    ensures -pi <= a <= pi && Congruent(pi, angle, a)
  {
    a := angle;
    while a > pi
      invariant WrapDown(pi, a) == WrapDown(pi, angle)
      decreases Turns(pi, a)
    {
      TurnsDrop(pi, a);
      a := a - 2.0 * pi;
    }
    while a < -pi
      invariant WrapUp(pi, a) == Wrap(pi, angle)
      decreases Turns(pi, -a)
    {
      TurnsDrop(pi, -a);
      a := a + 2.0 * pi;
    }
    WrapMeaning(pi, angle);
  }

  // ----- one step -----

  function Accelerate(v: real, input: Input, spec: CarSpec, dt: real): real {
    Clamp(v + (input.throttle - input.brake) * spec.maxAccel * dt, -spec.maxSpeed, spec.maxSpeed)
  }

  function Turn(input: Input, spec: CarSpec, dt: real): real {
    input.steering * spec.maxSteerRate * dt
  }

  function Steer(pi: real, heading: real, input: Input, spec: CarSpec, dt: real): real
    requires pi > 0.0
  {
    Wrap(pi, heading + Turn(input, spec, dt))
  }

  function Glide(e: Env, p: Vec3, v: real, heading: real, dt: real): Vec3 {
    Vec3(p.x + v * dt * e.cos(heading), p.y, p.z + v * dt * e.sin(heading))
  }

  /** What Step leaves in a car's motion. */
  function Stepped(e: Env, m: Motion, input: Input, spec: CarSpec, dt: real): Motion
    requires e.pi > 0.0
  {
    var v := Accelerate(m.velocity, input, spec, dt);
    var h := Steer(e.pi, m.heading, input, spec, dt);
    Motion(Glide(e, m.position, v, h, dt), v, h)
  }

  function Distance(e: Env, a: Vec3, b: Vec3): real {
    e.hypot(a.x - b.x, a.z - b.z)
  }

  // ----- geometry of hypot -----

  lemma PositiveProduct(x: real, y: real)
    requires x > 0.0 && y > 0.0
    ensures x * y > 0.0
  {
  }

  lemma SquareOrder(a: real, b: real)
    requires b >= 0.0 && a * a <= b * b
    ensures a <= b
  {
    if a > b {
      PositiveProduct(a - b, a + b);
    }
  }

  lemma SquareOfSum(a: real, b: real)
    ensures (a + b) * (a + b) == a * a + b * b + 2.0 * (a * b)
  {
  }

  lemma SquareOfProduct(a: real, b: real)
    ensures (a * b) * (a * b) == (a * a) * (b * b)
  {
  }

  lemma Lagrange(x1: real, z1: real, x2: real, z2: real)
    ensures (x1 * x2 + z1 * z2) * (x1 * x2 + z1 * z2) <= (x1 * x1 + z1 * z1) * (x2 * x2 + z2 * z2)
  {
    var cross := x1 * z2 - x2 * z1;
    assert cross * cross >= 0.0;
    assert (x1 * x2 + z1 * z2) * (x1 * x2 + z1 * z2) + cross * cross == (x1 * x1 + z1 * z1) * (x2 * x2 + z2 * z2);
  }

  lemma CauchySchwarz(x1: real, z1: real, x2: real, z2: real, p: real, q: real)
    requires p >= 0.0 && q >= 0.0 && p * p == x1 * x1 + z1 * z1 && q * q == x2 * x2 + z2 * z2
    ensures x1 * x2 + z1 * z2 <= p * q
  {
    Lagrange(x1, z1, x2, z2);
    SquareOfProduct(p, q);
    assert p * q >= 0.0;
    SquareOrder(x1 * x2 + z1 * z2, p * q);
  }

  lemma SumOfSquares(x1: real, z1: real, x2: real, z2: real)
    ensures (x1 + x2) * (x1 + x2) + (z1 + z2) * (z1 + z2)
         == (x1 * x1 + z1 * z1) + (x2 * x2 + z2 * z2) + 2.0 * (x1 * x2 + z1 * z2)
  {
    SquareOfSum(x1, x2);
    SquareOfSum(z1, z2);
  }

  lemma LegsOfTriangle(p: real, q: real, s: real, dot: real)
    requires p >= 0.0 && q >= 0.0 && dot <= p * q && s * s == p * p + q * q + 2.0 * dot
    ensures s <= p + q
  {
    SquareOfSum(p, q);
    SquareOrder(s, p + q);
  }

  lemma HypotTriangle(e: Env, x1: real, z1: real, x2: real, z2: real)
    requires EnvOk(e)
    ensures e.hypot(x1 + x2, z1 + z2) <= e.hypot(x1, z1) + e.hypot(x2, z2)
  {
    var p, q, s := e.hypot(x1, z1), e.hypot(x2, z2), e.hypot(x1 + x2, z1 + z2);
    assert HypotAt(e, x1, z1) && HypotAt(e, x2, z2) && HypotAt(e, x1 + x2, z1 + z2);
    CauchySchwarz(x1, z1, x2, z2, p, q);
    SumOfSquares(x1, z1, x2, z2);
    LegsOfTriangle(p, q, s, x1 * x2 + z1 * z2);
  }

  lemma Triangle(e: Env, a: Vec3, b: Vec3, c: Vec3)
    requires EnvOk(e)
    ensures Distance(e, a, c) <= Distance(e, a, b) + Distance(e, b, c)
  {
    HypotTriangle(e, a.x - b.x, a.z - b.z, b.x - c.x, b.z - c.z);
    assert a.x - b.x + (b.x - c.x) == a.x - c.x && a.z - b.z + (b.z - c.z) == a.z - c.z;
  }

  lemma DistanceFacts(e: Env, a: Vec3, b: Vec3)
    requires EnvOk(e)
    ensures Distance(e, a, b) == Distance(e, b, a) >= 0.0
    ensures Distance(e, a, a) == 0.0
  {
    var x, z := a.x - b.x, a.z - b.z;
    var p, q := e.hypot(x, z), e.hypot(-x, -z);
    assert HypotAt(e, x, z) && HypotAt(e, -x, -z) && HypotAt(e, 0.0, 0.0);
    assert b.x - a.x == -x && b.z - a.z == -z;
    assert q * q == p * p;
    SquareOrder(p, q);
    SquareOrder(q, p);
    var o := e.hypot(0.0, 0.0);
    assert o * o == 0.0;
    SquareOrder(o, 0.0);
    assert a.x - a.x == 0.0 && a.z - a.z == 0.0;
  }

  // ----- what a step can do -----

  /**
   * One step, written out: throttle less brake drives the speed, cut off at MaxSpeed; steering turns the
   * heading; and the new speed along the new heading moves the car in the plane.
   */
  lemma StepMeaning(e: Env, m: Motion, input: Input, spec: CarSpec, dt: real)
    requires e.pi > 0.0
    ensures var after := Stepped(e, m, input, spec, dt);
            var pushed := m.velocity + (input.throttle - input.brake) * spec.maxAccel * dt;
            && after.velocity == (if pushed < -spec.maxSpeed then -spec.maxSpeed
                                  else if pushed > spec.maxSpeed then spec.maxSpeed else pushed)
            && Congruent(e.pi, m.heading + input.steering * spec.maxSteerRate * dt, after.heading)
            && -e.pi <= after.heading <= e.pi
            && after.position.x - m.position.x == after.velocity * dt * e.cos(after.heading)
            && after.position.z - m.position.z == after.velocity * dt * e.sin(after.heading)
            && after.position.y == m.position.y
  {
    SpeedMeaning(m.velocity, input, spec, dt);
    HeadingMeaning(e.pi, m.heading, input, spec, dt);
  }

  /** What throttle and brake come to in one step. */
  function Pedals(input: Input, spec: CarSpec, dt: real): real {
    (input.throttle - input.brake) * spec.maxAccel * dt
  }

  lemma SpeedMeaning(v: real, input: Input, spec: CarSpec, dt: real)
    ensures var pushed := v + Pedals(input, spec, dt);
            Accelerate(v, input, spec, dt) ==
            if pushed < -spec.maxSpeed then -spec.maxSpeed
            else if pushed > spec.maxSpeed then spec.maxSpeed else pushed
  {
  }

  lemma HeadingMeaning(pi: real, heading: real, input: Input, spec: CarSpec, dt: real)
    requires pi > 0.0
    ensures var h := Steer(pi, heading, input, spec, dt);
            Congruent(pi, heading + input.steering * spec.maxSteerRate * dt, h) && -pi <= h <= pi
  {
    assert Turn(input, spec, dt) == input.steering * spec.maxSteerRate * dt;
    WrapMeaning(pi, heading + Turn(input, spec, dt));
  }

  /** Whatever the input, the speed after a step is at most |MaxSpeed|. */
  lemma SpeedBound(v: real, input: Input, spec: CarSpec, dt: real)
    ensures Abs(Accelerate(v, input, spec, dt)) <= Abs(spec.maxSpeed)
  {
  }

  lemma GlideLength(e: Env, p: Vec3, v: real, heading: real, dt: real)
    requires EnvOk(e) && dt >= 0.0
    ensures Distance(e, p, Glide(e, p, v, heading, dt)) == Abs(v) * dt
  {
    var c, s := e.cos(heading), e.sin(heading);
    var k := v * dt;
    var g := Glide(e, p, v, heading, dt);
    assert p.x - g.x == -(k * c) && p.z - g.z == -(k * s);
    var d := e.hypot(-(k * c), -(k * s));
    assert TrigAt(e, heading) && HypotAt(e, -(k * c), -(k * s));
    assert d * d == (k * c) * (k * c) + (k * s) * (k * s);
    assert (k * c) * (k * c) + (k * s) * (k * s) == k * k * (c * c + s * s);
    var w := Abs(v) * dt;
    assert w >= 0.0 && w * w == k * k;
    SquareOrder(d, w);
    SquareOrder(w, d);
  }

  /** One step moves a car by at most |MaxSpeed| * dt. */
  lemma StepReach(e: Env, m: Motion, input: Input, spec: CarSpec, dt: real)
    requires EnvOk(e) && dt >= 0.0
    ensures Distance(e, m.position, Stepped(e, m, input, spec, dt).position) <= Abs(spec.maxSpeed) * dt
  {
    var v := Accelerate(m.velocity, input, spec, dt);
    var h := Steer(e.pi, m.heading, input, spec, dt);
    SpeedBound(m.velocity, input, spec, dt);
    GlideLength(e, m.position, v, h, dt);
    assert (Abs(spec.maxSpeed) - Abs(v)) * dt >= 0.0;
  }

  // ----- whole input sequences -----

  function Drive(e: Env, m: Motion, inputs: seq<Input>, spec: CarSpec, dt: real): Motion
    requires e.pi > 0.0
  {
    if inputs == [] then m
    else Stepped(e, Drive(e, m, inputs[..|inputs| - 1], spec, dt), inputs[|inputs| - 1], spec, dt)
  }

  function SteeringSum(inputs: seq<Input>, spec: CarSpec, dt: real): real {
    if inputs == [] then 0.0
    else
      var last := inputs[|inputs| - 1];
      SteeringSum(inputs[..|inputs| - 1], spec, dt) + last.steering * spec.maxSteerRate * dt
  }

  lemma SteerCongruent(pi: real, sum: real, heading: real, input: Input, spec: CarSpec, dt: real)
    requires pi > 0.0 && Congruent(pi, sum, heading)
    ensures Congruent(pi, sum + Turn(input, spec, dt), Steer(pi, heading, input, spec, dt))
    ensures -pi <= Steer(pi, heading, input, spec, dt) <= pi
  {
    var x := Turn(input, spec, dt);
    CongruentShift(pi, sum, heading, x);
    WrapMeaning(pi, heading + x);
    var q: int :| TurnsApart(pi, sum + x, heading + x, q);
    CongruentStep(pi, sum + x, heading + x, Wrap(pi, heading + x), q);
  }

  /** After any inputs the heading is the first heading plus all steering, up to whole turns. */
  lemma {:induction false} HeadingIsSumOfSteering(e: Env, m: Motion, inputs: seq<Input>, spec: CarSpec, dt: real)
    requires e.pi > 0.0
    ensures Congruent(e.pi, m.heading + SteeringSum(inputs, spec, dt), Drive(e, m, inputs, spec, dt).heading)
    ensures inputs != [] ==> -e.pi <= Drive(e, m, inputs, spec, dt).heading <= e.pi
  {
    if inputs == [] {
      assert TurnsApart(e.pi, m.heading, m.heading, 0);
    } else {
      var before := inputs[..|inputs| - 1];
      HeadingIsSumOfSteering(e, m, before, spec, dt);
      var last := inputs[|inputs| - 1];
      var d := Drive(e, m, before, spec, dt);
      SteerCongruent(e.pi, m.heading + SteeringSum(before, spec, dt), d.heading, last, spec, dt);
    }
  }

  /** The speed limit holds throughout every drive exactly when the spec's MaxSpeed is not negative. */
  lemma SpeedLimitExact(e: Env, m: Motion, spec: CarSpec, dt: real)
    requires e.pi > 0.0 && Abs(m.velocity) <= Abs(spec.maxSpeed)
    ensures spec.maxSpeed >= 0.0 <==>
            forall inputs: seq<Input> :: Abs(Drive(e, m, inputs, spec, dt).velocity) <= spec.maxSpeed
  {
    if spec.maxSpeed >= 0.0 {
      forall inputs: seq<Input>
        ensures Abs(Drive(e, m, inputs, spec, dt).velocity) <= spec.maxSpeed
      {
        if inputs != [] {
          SpeedBound(Drive(e, m, inputs[..|inputs| - 1], spec, dt).velocity, inputs[|inputs| - 1], spec, dt);
        }
      }
    } else {
      assert Abs(Drive(e, m, [], spec, dt).velocity) >= 0.0;
    }
  }

  /** What the pedals add up to. */
  function PedalSum(inputs: seq<Input>, spec: CarSpec, dt: real): real {
    if inputs == [] then 0.0
    else PedalSum(inputs[..|inputs| - 1], spec, dt) + Pedals(inputs[|inputs| - 1], spec, dt)
  }

  /** The speed on the way never gets beyond the limit. */
  predicate NeverCut(v: real, inputs: seq<Input>, spec: CarSpec, dt: real) {
    forall i :: 0 < i <= |inputs| ==> -spec.maxSpeed <= v + PedalSum(inputs[..i], spec, dt) <= spec.maxSpeed
  }

  lemma DriveSpeed(e: Env, m: Motion, inputs: seq<Input>, spec: CarSpec, dt: real)
    requires e.pi > 0.0 && inputs != []
    ensures var n := |inputs| - 1;
            var v := Drive(e, m, inputs[..n], spec, dt).velocity + Pedals(inputs[n], spec, dt);
            Drive(e, m, inputs, spec, dt).velocity ==
            if v < -spec.maxSpeed then -spec.maxSpeed else if v > spec.maxSpeed then spec.maxSpeed else v
  {
    hide Accelerate, Pedals;
    SpeedMeaning(Drive(e, m, inputs[..|inputs| - 1], spec, dt).velocity, inputs[|inputs| - 1], spec, dt);
  }

  /** As long as the limit does not cut it off, the speed is the first speed plus what the pedals add up to. */
  lemma {:induction false} SpeedIsSumOfPedals(e: Env, m: Motion, inputs: seq<Input>, spec: CarSpec, dt: real)
    requires e.pi > 0.0 && NeverCut(m.velocity, inputs, spec, dt)
    ensures Drive(e, m, inputs, spec, dt).velocity == m.velocity + PedalSum(inputs, spec, dt)
  {
    if inputs != [] {
      var n := |inputs| - 1;
      hide Pedals;
      NeverCutBefore(m.velocity, inputs, spec, dt);
      SpeedIsSumOfPedals(e, m, inputs[..n], spec, dt);
      LastNotCut(m.velocity, inputs, spec, dt);
      DriveSpeed(e, m, inputs, spec, dt);
    } else {
      assert Drive(e, m, inputs, spec, dt) == m;
    }
  }

  lemma NeverCutBefore(v: real, inputs: seq<Input>, spec: CarSpec, dt: real)
    requires inputs != [] && NeverCut(v, inputs, spec, dt)
    ensures NeverCut(v, inputs[..|inputs| - 1], spec, dt)
  {
    hide PedalSum;
    var n := |inputs| - 1;
    forall i | 0 < i <= n
      ensures -spec.maxSpeed <= v + PedalSum(inputs[..n][..i], spec, dt) <= spec.maxSpeed
    {
      assert inputs[..n][..i] == inputs[..i];
    }
  }

  lemma LastNotCut(v: real, inputs: seq<Input>, spec: CarSpec, dt: real)
    requires inputs != [] && NeverCut(v, inputs, spec, dt)
    ensures -spec.maxSpeed <= v + PedalSum(inputs, spec, dt) <= spec.maxSpeed
  {
    hide PedalSum;
    assert inputs[..|inputs|] == inputs;
  }

  lemma MorePush(a: Input, b: Input, spec: CarSpec, dt: real)
    requires a.throttle - a.brake <= b.throttle - b.brake && spec.maxAccel >= 0.0 && dt >= 0.0
    ensures Pedals(a, spec, dt) <= Pedals(b, spec, dt)
  {
    var p, q := a.throttle - a.brake, b.throttle - b.brake;
    assert (q - p) * spec.maxAccel >= 0.0;
    assert (q - p) * spec.maxAccel * dt >= 0.0;
    assert (q - p) * spec.maxAccel * dt == q * spec.maxAccel * dt - p * spec.maxAccel * dt;
  }

  /** More throttle or less brake never makes a car slower, over any drive and from any speed. */
  lemma {:induction false} MoreThrottleIsNotSlower(e: Env, m: Motion, m': Motion, inputs: seq<Input>,
                                                   inputs': seq<Input>, spec: CarSpec, dt: real)
    requires e.pi > 0.0 && spec.maxAccel >= 0.0 && spec.maxSpeed >= 0.0 && dt >= 0.0
    requires m.velocity <= m'.velocity && |inputs| == |inputs'|
    requires forall i :: 0 <= i < |inputs| ==>
               inputs[i].throttle - inputs[i].brake <= inputs'[i].throttle - inputs'[i].brake
    ensures Drive(e, m, inputs, spec, dt).velocity <= Drive(e, m', inputs', spec, dt).velocity
  {
    if inputs != [] {
      var n := |inputs| - 1;
      MoreThrottleIsNotSlower(e, m, m', inputs[..n], inputs'[..n], spec, dt);
      MorePush(inputs[n], inputs'[n], spec, dt);
      hide Drive, Pedals;
      DriveSpeed(e, m, inputs, spec, dt);
      DriveSpeed(e, m', inputs', spec, dt);
    }
  }

  /** How far a car of this spec can get in one step. */
  function Reach(spec: CarSpec, dt: real): real {
    Abs(spec.maxSpeed) * dt
  }

  lemma OneMoreStep(e: Env, a: Vec3, b: Vec3, c: Vec3, n: nat, r: real)
    requires EnvOk(e) && Distance(e, a, b) <= n as real * r && Distance(e, b, c) <= r
    ensures Distance(e, a, c) <= (n + 1) as real * r
  {
    Triangle(e, a, b, c);
    assert (n + 1) as real == n as real + 1.0;
    assert (n as real + 1.0) * r == n as real * r + r;
  }

  /** One more step from d, when d was within n reaches of a. */
  lemma ReachGrows(e: Env, a: Vec3, d: Motion, after: Motion, n: nat, input: Input, spec: CarSpec, dt: real)
    requires EnvOk(e) && dt >= 0.0 && after == Stepped(e, d, input, spec, dt)
    requires Distance(e, a, d.position) <= n as real * Reach(spec, dt)
    ensures Distance(e, a, after.position) <= (n + 1) as real * Reach(spec, dt)
  {
    StepReach(e, d, input, spec, dt);
    OneMoreStep(e, a, d.position, after.position, n, Reach(spec, dt));
  }

  /** A drive of n steps stays within n * |MaxSpeed| * dt of where it began. */
  lemma {:induction false} DriveReach(e: Env, m: Motion, inputs: seq<Input>, spec: CarSpec, dt: real)
    requires EnvOk(e) && dt >= 0.0
    ensures Distance(e, m.position, Drive(e, m, inputs, spec, dt).position) <= |inputs| as real * Reach(spec, dt)
  {
    if inputs == [] {
      DistanceFacts(e, m.position, m.position);
    } else {
      var n := |inputs| - 1;
      DriveReach(e, m, inputs[..n], spec, dt);
      var d, after := Drive(e, m, inputs[..n], spec, dt), Drive(e, m, inputs, spec, dt);
      ReachGrows(e, m.position, d, after, n, inputs[n], spec, dt);
    }
  }
}
