/**
  The in-memory vehicle store: the seed fleet, the simulation tick that
  sweeps it in place, and the lookup of a car by id.
*/
module Fleet {
  import opened Wrappers
  import opened Vehicle

  predicate AllInBounds(s: seq<Car>) {
    forall i :: 0 <= i < |s| ==> InBounds(s[i])
  }

  predicate DistinctIds(s: seq<Car>) {
    forall i, j :: 0 <= i < j < |s| ==> s[i].id != s[j].id
  }

  /** The ids of the fleet, in store order. */
  function Ids(s: seq<Car>): seq<int> {
    seq(|s|, i requires 0 <= i < |s| => s[i].id)
  }

  /** One valid group of draws per car. */
  predicate DrawsFit(ds: seq<Draws>, n: nat) {
    |ds| == n && forall k :: 0 <= k < n ==> ds[k].Valid()
  }

  /** The fleet after one tick: every car advanced by Step, in store order. */
  function Tick(s: seq<Car>, ds: seq<Draws>, now: Timestamp): (t: seq<Car>)
    requires DrawsFit(ds, |s|)
    // no car is added, removed or reordered, and no id changes
    ensures Ids(t) == Ids(s)
    // every car's timestamp is refreshed
    ensures forall i :: 0 <= i < |t| ==> t[i].lastUpdated == now && t[i].brand == s[i].brand
    // the store invariants are preserved
    ensures AllInBounds(s) ==> AllInBounds(t)
    ensures DistinctIds(s) ==> DistinctIds(t)
  {
    seq(|s|, i requires 0 <= i < |s| => Step(s[i], ds[i], now))
  }

  /** The draws and the clock reading of one tick. */
  datatype Round = Round(draws: seq<Draws>, now: Timestamp)

  predicate RoundsFit(rounds: seq<Round>, n: nat) {
    forall k :: 0 <= k < |rounds| ==> DrawsFit(rounds[k].draws, n)
  }

  /** The fleet after a sequence of ticks, one per round. */
  function Run(s: seq<Car>, rounds: seq<Round>): (t: seq<Car>)
    requires RoundsFit(rounds, |s|)
    ensures |t| == |s|
    decreases |rounds|
  {
    if rounds == [] then s
    else Run(Tick(s, rounds[0].draws, rounds[0].now), rounds[1..])
  }

  /**
    Running one more tick after a run is the run extended by that tick, so a
    store that has made k sweeps (each an UpdateCars call) holds Run of its
    initial contents over those k rounds.
  */
  lemma {:induction false} RunSnoc(s: seq<Car>, rounds: seq<Round>, r: Round)
    requires RoundsFit(rounds, |s|) && DrawsFit(r.draws, |s|)
    ensures RoundsFit(rounds + [r], |s|)
    ensures Run(s, rounds + [r]) == Tick(Run(s, rounds), r.draws, r.now)
    decreases |rounds|
  {
    assert RoundsFit(rounds + [r], |s|) by {
      forall k | 0 <= k < |rounds + [r]| ensures DrawsFit((rounds + [r])[k].draws, |s|) {
        if k < |rounds| { assert (rounds + [r])[k] == rounds[k]; }
      }
    }
    if rounds == [] {
      assert [r][1..] == [];
    } else {
      var t := Tick(s, rounds[0].draws, rounds[0].now);
      assert |t| == |Ids(t)| == |Ids(s)| == |s|;
      assert (rounds + [r])[1..] == rounds[1..] + [r];
      RunSnoc(t, rounds[1..], r);
    }
  }

  /**
    However many ticks run and whatever they draw, the fleet keeps its size,
    its ids in order, its bounds and the distinctness of its ids.
  */
  lemma {:induction false} RunPreservesInvariants(s: seq<Car>, rounds: seq<Round>)
    requires RoundsFit(rounds, |s|)
    ensures |Run(s, rounds)| == |s|
    ensures Ids(Run(s, rounds)) == Ids(s)
    ensures AllInBounds(s) ==> AllInBounds(Run(s, rounds))
    ensures DistinctIds(s) ==> DistinctIds(Run(s, rounds))
    decreases |rounds|
  {
    if rounds != [] {
      var t := Tick(s, rounds[0].draws, rounds[0].now);
      assert |t| == |Ids(t)| == |Ids(s)| == |s|;
      RunPreservesInvariants(t, rounds[1..]);
    }
  }

  /**
    No branch of the tick ever assigns the idle status, so a car that is idle
    after any number of ticks was idle from the start, and nothing about it
    but its timestamp has changed.
  */
  lemma {:induction false} IdleIsNeverEntered(s: seq<Car>, rounds: seq<Round>, i: nat)
    requires RoundsFit(rounds, |s|)
    requires i < |s|
    requires Run(s, rounds)[i].status == IDLE
    ensures s[i] == Run(s, rounds)[i].(lastUpdated := s[i].lastUpdated)
    decreases |rounds|
  {
    if rounds != [] {
      var t := Tick(s, rounds[0].draws, rounds[0].now);
      assert |t| == |Ids(t)| == |Ids(s)| == |s|;
      IdleIsNeverEntered(t, rounds[1..], i);
      assert t[i] == Step(s[i], rounds[0].draws[i], rounds[0].now);
    }
  }

  /** The four cars the store starts with. */
  function SeedCars(now: Timestamp): (s: seq<Car>)
    ensures Ids(s) == [1, 2, 3, 4]
    ensures AllInBounds(s) && DistinctIds(s)
    ensures forall i :: 0 <= i < |s| ==> IsKnownStatus(s[i].status) && s[i].lastUpdated == now
  {
    [ Car(1, "Tesla Model S", 42.0, 78.0, DRIVING, 37.7749, -122.4194, "Delivering food order", now),
      Car(2, "Mercedes EQS", 0.0, 89.0, CHARGING, 37.7849, -122.4094, "Charging at mall", now),
      Car(3, "Audi e-tron", 28.0, 63.0, DRIVING, 37.7649, -122.4294, "Transporting passenger", now),
      Car(4, "BMW 7 Series", 0.0, 41.0, IDLE, 37.7549, -122.4394, "Waiting at parking lot", now) ]
  }

  /**
    After any number of ticks from the seed fleet, a car with a given id
    exists exactly when the id is one of 1 to 4: a lookup of any other id
    always fails, and a lookup of a seed id always succeeds.
  */
  lemma SeedIdsAreForever(start: Timestamp, rounds: seq<Round>, id: int)
    requires RoundsFit(rounds, 4)
    ensures var t := Run(SeedCars(start), rounds);
            (exists k :: 0 <= k < |t| && t[k].id == id) <==> 1 <= id <= 4
  {
    var s := SeedCars(start);
    RunPreservesInvariants(s, rounds);
    var t := Run(s, rounds);
    assert Ids(t) == [1, 2, 3, 4];
    if 1 <= id <= 4 {
      assert t[id - 1].id == Ids(t)[id - 1];
    } else {
      forall k | 0 <= k < |t| ensures t[k].id != id {
        assert t[k].id == Ids(t)[k];
      }
    }
  }

  /** The store: the array of car records that the tick updates in place. */
  class Store {
    const cars: array<Car>

    /** The invariant the seed establishes and every tick preserves. */
    ghost predicate Valid()
      reads cars
    {
      AllInBounds(cars[..]) && DistinctIds(cars[..])
    }

    /** The store as the process starts: the seed fleet, stamped now. */
    constructor (now: Timestamp)
      ensures fresh(cars)
      ensures cars[..] == SeedCars(now)
      ensures Valid()
    {
      var seed := SeedCars(now);
      cars := new Car[|seed|](i requires 0 <= i < |seed| => seed[i]);
      new;
      assert cars[..] == seed;
    }

    /**
      One simulation tick: each car advanced in place, in store order, with
      ds[i] the draws made while updating car i and now the clock reading.
    */
    method UpdateCars(ds: seq<Draws>, now: Timestamp)
      requires DrawsFit(ds, cars.Length)
      modifies cars
      ensures cars[..] == Tick(old(cars[..]), ds, now)
      ensures old(Valid()) ==> Valid()
    {
      for i := 0 to cars.Length
        invariant forall k :: 0 <= k < i ==> cars[k] == Step(old(cars[k]), ds[k], now)
        invariant forall k :: i <= k < cars.Length ==> cars[k] == old(cars[k])
      {
        var car := cars[i];
        var d := ds[i];
        if car.status == DRIVING {
          car := car.(lat := car.lat + (d.r1 - 0.5) * 0.001);
          car := car.(lon := car.lon + (d.r2 - 0.5) * 0.001);

          car := car.(speed := car.speed + (d.r3 - 0.5) * 10.0);
          if car.speed < 0.0 { car := car.(speed := 0.0); }
          if car.speed > MAX_SPEED { car := car.(speed := MAX_SPEED); }

          car := car.(battery := car.battery - d.r4 * 2.0);
          if car.battery < 0.0 { car := car.(battery := 0.0); }

          if car.battery < LOW_BATTERY {
            car := car.(status := CHARGING, speed := 0.0, currentTask := LOW_BATTERY_TASK);
          }
        } else if car.status == CHARGING {
          car := car.(battery := car.battery + d.r1 * 5.0);
          if car.battery > MAX_BATTERY { car := car.(battery := MAX_BATTERY); }
          car := car.(speed := 0.0);

          if car.battery > CHARGED {
            car := car.(status := DRIVING, currentTask := BACK_ON_ROAD_TASK);
          }
        } else if car.status == IDLE {
          if d.r1 < RIDE_CHANCE {
            car := car.(status := DRIVING, speed := d.r2 * 40.0 + 20.0, currentTask := NEW_RIDE_TASK);
          }
        }
        car := car.(lastUpdated := now);
        cars[i] := car;
      }
    }

    /**
      The lookup of the get-by-id endpoint: the first car with the given id,
      or None when no car has it.
    */
    method FindById(id: int) returns (found: Option<Car>)
      ensures found.Some? ==>
                exists k :: 0 <= k < cars.Length && cars[k] == found.value && found.value.id == id
                            && forall j :: 0 <= j < k ==> cars[j].id != id
      ensures found.None? <==> forall k :: 0 <= k < cars.Length ==> cars[k].id != id
    {
      found := None;
      for i := 0 to cars.Length
        invariant found == None
        invariant forall j :: 0 <= j < i ==> cars[j].id != id
      {
        if cars[i].id == id {
          found := Some(cars[i]);
          break;
        }
      }
    }
  }
}
