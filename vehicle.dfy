/**
  One simulated car and the rule that advances it by one tick of the
  fleet simulation: a three-state machine (driving, charging, idle) with
  clamped random updates and threshold-triggered status changes.
*/
module Vehicle {

  // The status strings the simulation recognises.
  const DRIVING: string := "driving"
  const CHARGING: string := "charging"
  const IDLE: string := "idle"

  // The task descriptions the simulation assigns when a car changes status.
  const LOW_BATTERY_TASK: string := "Low battery - finding charger"
  const BACK_ON_ROAD_TASK: string := "Back on the road"
  const NEW_RIDE_TASK: string := "Got new ride request"

  const MAX_SPEED: real := 80.0
  const MAX_BATTERY: real := 100.0
  /** A driving car whose battery ends a tick below this goes to charge. */
  const LOW_BATTERY: real := 20.0
  /** A charging car whose battery ends a tick above this goes back on the road. */
  const CHARGED: real := 95.0
  /** An idle car picks up a ride when its draw falls below this. */
  const RIDE_CHANCE: real := 0.1

  /** An abstract reading of the wall clock. */
  type Timestamp = int

  datatype Car = Car(
    id: int,
    brand: string,
    speed: real,
    battery: real,
    status: string,
    lat: real,
    lon: real,
    currentTask: string,
    lastUpdated: Timestamp)

  /** The bounds every car keeps: speed in [0, 80], battery in [0, 100]. */
  predicate InBounds(c: Car) {
    0.0 <= c.speed <= MAX_SPEED && 0.0 <= c.battery <= MAX_BATTERY
  }

  /**
    The values returned by the calls to the random number generator made
    while one car is updated, in the order the calls are made. A branch
    uses only as many of them as it makes calls (see DrawsUsed).
  */
  datatype Draws = Draws(r1: real, r2: real, r3: real, r4: real) {
    /** Every draw lies in [0, 1), the range of the generator. */
    predicate Valid() {
      0.0 <= r1 < 1.0 && 0.0 <= r2 < 1.0 && 0.0 <= r3 < 1.0 && 0.0 <= r4 < 1.0
    }

    /** The first n draws, in call order. */
    function Prefix(n: nat): (p: seq<real>)
      ensures |p| == if n < 4 then n else 4
    {
      var all := [r1, r2, r3, r4];
      if n < 4 then all[..n] else all
    }
  }

  function Abs(x: real): real {
    if x < 0.0 then -x else x
  }

  predicate IsKnownStatus(s: string) {
    s == DRIVING || s == CHARGING || s == IDLE
  }

  /** The edges of the state machine, plus staying put. */
  predicate AllowedTransition(from: string, to: string) {
    || from == to
    || (from == DRIVING && to == CHARGING)
    || (from == CHARGING && to == DRIVING)
    || (from == IDLE && to == DRIVING)
  }

  /**
    What a tick may do to a car that starts it driving: it drifts by at
    most half a thousandth of a degree on each axis, its battery drains by
    less than 2 and never below 0, its speed stays in [0, 80]; if the battery
    ends below 20 it is charging with speed 0 and the low-battery task,
    otherwise it is still driving, its speed moved by at most 5 and its task
    unchanged.
  */
  predicate DrivingOutcome(c: Car, r: Car) {
    && Abs(r.lat - c.lat) <= 0.0005
    && Abs(r.lon - c.lon) <= 0.0005
    && 0.0 <= r.battery
    && (0.0 <= c.battery ==> r.battery <= c.battery)
    && (r.battery == 0.0 || c.battery - 2.0 < r.battery)
    && 0.0 <= r.speed <= MAX_SPEED
    && (r.status == CHARGING <==> r.battery < LOW_BATTERY)
    && if r.battery < LOW_BATTERY then
         r.speed == 0.0 && r.currentTask == LOW_BATTERY_TASK
       else
         && r.status == DRIVING
         && r.currentTask == c.currentTask
         && (0.0 <= c.speed <= MAX_SPEED ==> Abs(r.speed - c.speed) <= 5.0)
  }

  /**
    What a tick may do to a car that starts it charging: it does not move,
    its speed is 0, its battery gains less than 5, never decreases (unless it
    was above 100) and is capped at 100; if the battery ends above 95 it is
    driving with the back-on-the-road task, otherwise still charging with
    its task unchanged.
  */
  predicate ChargingOutcome(c: Car, r: Car) {
    && r.lat == c.lat
    && r.lon == c.lon
    && r.speed == 0.0
    && r.battery <= MAX_BATTERY
    && (c.battery <= MAX_BATTERY ==> c.battery <= r.battery)
    && (r.battery == MAX_BATTERY || r.battery < c.battery + 5.0)
    && (r.status == DRIVING <==> r.battery > CHARGED)
    && if r.battery > CHARGED then
         r.currentTask == BACK_ON_ROAD_TASK
       else
         r.status == CHARGING && r.currentTask == c.currentTask
  }

  /**
    What a tick may do to a car that starts it idle: nothing but the
    timestamp, or it starts driving at a speed in [20, 60) with the
    new-ride task, its battery and position untouched.
  */
  predicate IdleOutcome(c: Car, r: Car) {
    || r == c.(lastUpdated := r.lastUpdated)
    || (&& r.status == DRIVING
        && 20.0 <= r.speed < 60.0
        && r.currentTask == NEW_RIDE_TASK
        && r.battery == c.battery
        && r.lat == c.lat
        && r.lon == c.lon)
  }

  /**
    One car's update in one tick, given the draws made for it and the clock
    reading; the branches form an if / else-if chain on the status at the
    start of the tick, so a car takes at most one branch.
  */
  function Step(c: Car, d: Draws, now: Timestamp): (r: Car)
    requires d.Valid()
    // identity and the timestamp
    ensures r.id == c.id && r.brand == c.brand && r.lastUpdated == now
    // the bounds invariant is preserved
    ensures InBounds(c) ==> InBounds(r)
    // at most one status change, along an edge of the state machine
    ensures AllowedTransition(c.status, r.status)
    ensures IsKnownStatus(r.status) <==> IsKnownStatus(c.status)
    // only a car that was driving moves
    ensures c.status != DRIVING ==> r.lat == c.lat && r.lon == c.lon
    ensures c.status == DRIVING ==> DrivingOutcome(c, r)
    ensures c.status == CHARGING ==> ChargingOutcome(c, r)
    ensures c.status == IDLE ==> IdleOutcome(c, r)
    ensures c.status == IDLE ==> (r.status == DRIVING <==> d.r1 < RIDE_CHANCE)
    ensures !IsKnownStatus(c.status) ==> r == c.(lastUpdated := now)
  {
    var moved :=
      if c.status == DRIVING then
        var lat := c.lat + (d.r1 - 0.5) * 0.001;
        var lon := c.lon + (d.r2 - 0.5) * 0.001;
        var speed := Clamp(c.speed + (d.r3 - 0.5) * 10.0, 0.0, MAX_SPEED);
        var battery := Max(c.battery - d.r4 * 2.0, 0.0);
        if battery < LOW_BATTERY then
          c.(lat := lat, lon := lon, speed := 0.0, battery := battery,
             status := CHARGING, currentTask := LOW_BATTERY_TASK)
        else
          c.(lat := lat, lon := lon, speed := speed, battery := battery)
      else if c.status == CHARGING then
        var battery := Min(c.battery + d.r1 * 5.0, MAX_BATTERY);
        if battery > CHARGED then
          c.(speed := 0.0, battery := battery, status := DRIVING, currentTask := BACK_ON_ROAD_TASK)
        else
          c.(speed := 0.0, battery := battery)
      else if c.status == IDLE && d.r1 < RIDE_CHANCE then
        c.(status := DRIVING, speed := d.r2 * 40.0 + 20.0, currentTask := NEW_RIDE_TASK)
      else
        c;
    moved.(lastUpdated := now)
  }

  function Max(x: real, floor: real): real {
    if x < floor then floor else x
  }

  function Min(x: real, ceiling: real): real {
    if x > ceiling then ceiling else x
  }

  /** Floors at lo first, then caps at hi, in that order. */
  function Clamp(x: real, lo: real, hi: real): real {
    Min(Max(x, lo), hi)
  }

  /** How many random draws the update of car c makes, given the draws. */
  function DrawsUsed(c: Car, d: Draws): (n: nat)
    ensures n <= 4
  {
    if c.status == DRIVING then 4
    else if c.status == CHARGING then 1
    else if c.status == IDLE then (if d.r1 < RIDE_CHANCE then 2 else 1)
    else 0
  }

  /**
    A car's update depends only on the draws its branch actually makes, so
    supplying four per car is a faithful stand-in for the generator's
    stream of calls.
  */
  lemma StepDependsOnlyOnUsedDraws(c: Car, d: Draws, e: Draws, now: Timestamp)
    requires d.Valid() && e.Valid()
    requires d.Prefix(DrawsUsed(c, d)) == e.Prefix(DrawsUsed(c, d))
    ensures DrawsUsed(c, e) == DrawsUsed(c, d)
    ensures Step(c, d, now) == Step(c, e, now)
  {
    var n := DrawsUsed(c, d);
    assert n >= 1 ==> d.r1 == d.Prefix(n)[0] && e.r1 == e.Prefix(n)[0];
    assert n >= 2 ==> d.r2 == d.Prefix(n)[1] && e.r2 == e.Prefix(n)[1];
    assert n >= 3 ==> d.r3 == d.Prefix(n)[2] && e.r3 == e.Prefix(n)[2];
    assert n >= 4 ==> d.r4 == d.Prefix(n)[3] && e.r4 == e.Prefix(n)[3];
  }
}
