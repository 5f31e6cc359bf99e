# Fleet simulation model

A Dafny model of the simulation core of a small car-monitoring API. The
server keeps an in-memory array of four car records. On a timer it
sweeps the array and advances each car through a three-state machine:

- **driving**: the car drifts in position, its speed is perturbed and clamped to [0, 80], and its battery drains and is floored at 0. Below 20 % battery it switches to charging.
- **charging**: the battery is topped up and capped at 100, and the speed is forced to 0. Above 95 % it goes back to driving.
- **idle**: with a 10 % chance per tick the car picks up a ride and starts driving.

A read endpoint looks a car up by id and answers "not found" when no car has that id.

- `wrappers.dfy`: `Option`, the result of the lookup.
- `vehicle.dfy`: the `Car` record and `Step`, which advances one car by one tick. `Step` is the reference definition. Its contract states, branch by branch, what a tick may do to a car.
- `fleet.dfy`: the seed fleet, `Tick` over the whole fleet, `Run` over several ticks, and lemmas about them. It also holds the class `Store`: a constant array of car records, with the sweep `UpdateCars` and the lookup `FindById` as loops. `UpdateCars` is proved to leave `Tick` of the old contents. `FindById`'s contract states its result directly, with quantifiers over the array.

How the inputs are modelled:

- Every call to the random number generator becomes a caller-supplied real in [0, 1). For car `i`, `ds[i]` holds the draws in call order: lat, lon, speed, battery when driving; battery when charging; the ride chance and then the speed when idle. `DrawsUsed` counts the calls each branch makes, and `StepDependsOnlyOnUsedDraws` proves that a car's update reads no draw beyond that count. That `DrawsUsed` is the exact number of calls is read off the source, not proved. No function splits a single stream of draws into per-car groups.
- The clock becomes a `Timestamp` (an `int`) given to each tick.
- Speed, battery, latitude and longitude are `real`s.
- Status and task are strings, compared the same way the source compares them.

Because every draw is strictly below 1, the code gives these half-open ranges:

- An idle car that starts driving gets a speed in [20, 60): the upper end 60 is never reached.
- A charging car gains less than 5 per tick.
- A driving car loses less than 2 per tick.

## Model

| member | source | states |
|---|---|---|
| `Vehicle.Step` | backend/server.js:59-96 | One car's tick. Id and brand never change and `lastUpdated` becomes the clock reading. It preserves 0 <= speed <= 80 and 0 <= battery <= 100. The status either stays or follows one edge: driving to charging, charging to driving, or idle to driving. Only a car that was driving moves. Driving: the battery never rises, is floored at 0 and drains less than 2; speed stays in [0, 80]; the car turns charging with speed 0 and the low-battery task exactly when the battery ends below 20. Charging: speed 0, no movement, battery capped at 100 and never lower; the car turns driving with the back-on-the-road task, speed still 0, exactly when the battery ends above 95. Idle: the car is unchanged except for the timestamp, or it turns driving at a speed in [20, 60) with the new-ride task and the same battery and position; it turns driving exactly when its draw is below 0.1. An unrecognised status changes only `lastUpdated`. |
| `Vehicle.StepDependsOnlyOnUsedDraws` | backend/server.js:61-93 | Each branch makes a fixed number of generator calls: 4 when driving, 1 when charging, 1 or 2 when idle, 0 otherwise. A car's update depends only on those draws. |
| `Fleet.Tick` | backend/server.js:57-98 | The sweep keeps the fleet's length and its ids in order. It refreshes every car's `lastUpdated` and keeps every brand. It preserves the bounds of every car and the distinctness of their ids. |
| `Fleet.RunPreservesInvariants` | backend/server.js:57-100 | Over any number of ticks with any draws, the fleet keeps its size and its ids in order. The bounds and distinct ids hold after every tick if they held at the start. |
| `Fleet.RunSnoc` | backend/server.js:57-100 | A run followed by one more tick equals the run extended by that round. With the contract of `UpdateCars`, a caller that has made k calls can conclude, one call at a time, that the store holds `Run` of its seed contents over those k rounds. The lemmas about `Run` then apply to the store. |
| `Fleet.IdleIsNeverEntered` | backend/server.js:61-94 | No branch assigns idle. A car that is idle after any number of ticks was idle at the start and differs only in its timestamp. |
| `Fleet.SeedCars` | backend/server.js:10-55 | The seed fleet has ids 1, 2, 3 and 4, in that order, and they are distinct. Every seed car is within the bounds, has a recognised status and is stamped with the start time. |
| `Fleet.SeedIdsAreForever` | backend/server.js:114-131 | After any number of ticks from the seed fleet, a car with a given id exists exactly when the id is 1 to 4. So a lookup of any other id always fails, and a lookup of a seed id always succeeds. |
| `Fleet.Store.constructor` | backend/server.js:10-55 | The store starts as a fresh array holding the seed fleet, and that array satisfies the store invariant. |
| `Fleet.Store.UpdateCars` | backend/server.js:57-98 | The sweep updates the array in place, car by car in store order, so that afterwards it holds `Tick` of its old contents. The store invariant (bounds, distinct ids) is preserved. |
| `Fleet.Store.FindById` | backend/server.js:111-131 | The lookup returns the first car in the store whose id is the requested one. It returns `None` exactly when no car has that id. |

## Left out

- HTTP setup, CORS, JSON body parsing, response shaping (success flags, status 404, the message, the response timestamp) and the start-up logging. These are framework glue and I/O.
- The list endpoint. It only serialises the array as it is.
- The two-second timer. One tick is one call of `UpdateCars`, and `Run` stands for a sequence of ticks.
- The random number generator. Its values are parameters, constrained to [0, 1).
- ISO date strings. Timestamps are abstract integers. One clock reading serves the whole tick, where the source reads the clock once per car. Likewise one reading stamps all four seed cars, where the source reads it once per seed record.
- Floating point. Arithmetic is exact on `real`, so no rounding is modelled.
- Parsing the id from the URL. The lookup takes an `int`.
- Reads that interleave with a sweep in progress. The model is sequential.
- Fleet.Store.FindById: returns a copy of the record, not a reference to the shared object, because records are values in the model. Aliasing of the JavaScript car objects is not captured.
