# VirtualClock: a verified model of the simulation tick clock

This project models `VirtualClock`, the clock of the OASIS social-media simulation. The clock gives simulated time that does not depend on the wall clock. Time is a tick counter that moves only when the driver calls `advance_tick`. Within a tick, `event_time` gives every agent action a virtual second: an integer offset from a fixed epoch. That second is:

- drawn deterministically from the seed, the tick, the agent, an action hint, the agent's call count in this tick and the allowed range;
- strictly later than a causal parent, when one is given;
- not yet used in this tick, while some second from its lower bound (the tick start, or the parent plus one) to the tick end is still free.

The model has two files:

- `virtual_clock.dfy`, module `Clock`.
  - `VirtualClock` is a class. Its constant fields hold the configuration: `tickDuration`, `epoch` and `seed`. Its mutable fields hold the state: `tick`, `eventCounter` (keyed by (tick, agent)) and `usedTimes` (per tick, the set of seconds already issued).
  - `EventTime` is a method; it calls `ResolveCollision`, which holds the source's probe loop. `EventTime` is proved against the pure function `Stamp`. `Stamp` is built from `MinTime`, the draw `Draw` and the recursive probe `Probe`.
  - Lemmas about `Probe` pin down the result exactly. The probe returns the first free second in cyclic order from the drawn candidate. It finds a free second whenever one exists. When the range is full, it returns the candidate itself.
- `scenarios.dfy`, module `ClockScenarios`. These are driver-side clients that rely only on the contracts: a post and its reply, a spill at the end of a tick, the range after an advance, distinct stamps within a tick, same state giving the same stamp, and replay after `Reset`.

Instants (`datetime`) are integer seconds, and `epoch` is an integer instant. `to_datetime` and `from_datetime` are therefore epoch-plus-offset arithmetic.

Edge behaviour the model keeps from the code:

- The constructor does not reject a non-positive `tick_duration_s` (oasis/clock/virtual_clock.py:71-92), and `advance_tick` does not reject `n < 1` (oasis/clock/virtual_clock.py:94-107). The model accepts both as well. Monotonicity of the tick is stated only for `n >= 1`.
- With a duration of zero or less and no parent, `min_time > max_time` holds. The source then evaluates `None + 1` at line 175 and raises `TypeError`. This is the only input `event_time` cannot handle, so `EventTime` requires a parent or a positive duration. With a parent, every duration is handled.
- With a parent from an earlier tick, `min_time` falls below the tick start (line 165). The draw range then reaches back into earlier ticks, while uniqueness is checked only against the current tick's set (line 190). The model therefore claims the tick range only for events without a parent. For events with one it claims `r > parent` always, and `min_time <= r <= tick_end` on the normal path. On spill (`min_time > tick_end`) the result is `parent + 1`, which lies past the tick end.
- A spilled stamp is returned before the counter and the used set are touched (lines 171-175). It is not recorded, so two replies to the same parent at the last second of a tick both get that second plus one.
- Uniqueness is searched only from the lower bound to the tick end (lines 165, 192-199). With a parent that range can be full while earlier seconds of the tick are free: two replies to a parent at the second-to-last second of a tick both get the last second, on the normal path. A stamp is therefore unique within the tick only while that range has room, which is narrower than "unique within the current tick" in the docstring (lines 136-137).

## Model

| member | source | states |
|---|---|---|
| `Clock.Draw` | oasis/clock/virtual_clock.py:182-187 | the candidate depends only on (seed, tick, agent, hint, event index) and the range [lo, hi], and lies in that inclusive range |
| `Clock.Next` | oasis/clock/virtual_clock.py:194-196 | one probe step stays inside [lo, hi]: it is g + 1 below hi and wraps to lo at hi |
| `Clock.Probe` | oasis/clock/virtual_clock.py:190-197 | the probe loop's result stays inside [lo, hi], and a free candidate is returned unchanged |
| `Clock.ProbeFindsFree` | oasis/clock/virtual_clock.py:190-197 | if some second in [lo, hi] is unused and within reach of the attempts left, the probe returns an unused second |
| `Clock.ProbeFirstFree` | oasis/clock/virtual_clock.py:193-197 | every second the probe passes over, in cyclic order from the candidate, was already used: the result is the first free one |
| `Clock.ProbeAllUsed` | oasis/clock/virtual_clock.py:192-197 | with [lo, hi] fully used, k attempts (k at most the range size) move the probe exactly k seconds forward, wrapping once |
| `Clock.ProbeExhausted` | oasis/clock/virtual_clock.py:192-199 | with [lo, hi] fully used, the full max_attempts probe returns the drawn candidate itself (the tolerated collision) |
| `Clock.MinTime` | oasis/clock/virtual_clock.py:163-167 | the lower bound is strictly after the parent when one is given, and the tick start otherwise |
| `Clock.Stamp` | oasis/clock/virtual_clock.py:159-200 | the stamp is greater than the parent; without a parent it is in [tick start, tick end]; on the normal path it is in [min_time, tick end]; on spill it is exactly parent + 1 |
| `Clock.StampFresh` | oasis/clock/virtual_clock.py:189-199 | on the normal path, if any second of [min_time, tick end] is unused in this tick, the stamp was not used before |
| `Clock.StampFirstFree` | oasis/clock/virtual_clock.py:183-197 | on the normal path, every second between the drawn candidate and the stamp, in cyclic order, was already used in this tick |
| `Clock.StampExhausted` | oasis/clock/virtual_clock.py:189-199 | on the normal path with [min_time, tick end] fully used, the stamp equals the drawn candidate |
| `Clock.EventStep` | oasis/clock/virtual_clock.py:159-200 | one call of event_time as a value: its stamp is Stamp of the agent's counter and the tick's used set; on spill the bookkeeping is unchanged; otherwise the (tick, agent) counter goes up by one and the tick's used set gains exactly the stamp |
| `Clock.EventStepFrame` | oasis/clock/virtual_clock.py:177-199 | one call of event_time leaves every other (tick, agent) counter and every other tick's used set as it was |
| `Clock.VirtualClock.constructor` | oasis/clock/virtual_clock.py:71-92 | the configuration and the initial tick are as given, and both bookkeeping maps are empty |
| `Clock.VirtualClock.AdvanceTick` | oasis/clock/virtual_clock.py:94-107 | tick becomes old tick + n, the counter map is emptied, used seconds are kept; the tick grows when n >= 1; the start moves by n durations, so after one step the new tick starts right after the old one ends |
| `Clock.VirtualClock.TickStart` | oasis/clock/virtual_clock.py:109-116 | the current tick starts at tick × tick_duration_s seconds |
| `Clock.VirtualClock.TickEnd` | oasis/clock/virtual_clock.py:109-125 | the inclusive end lies tick_duration_s − 1 seconds after the start, so the tick spans tick_duration_s seconds |
| `Clock.VirtualClock.TickEndBeforeNextTick` | oasis/clock/virtual_clock.py:118-125 | the inclusive end is (tick + 1) × tick_duration_s − 1, one second before the next tick's start |
| `Clock.VirtualClock.TickRangeSize` | oasis/clock/virtual_clock.py:116-125 | for a positive duration, the current tick's range holds exactly tick_duration_s seconds |
| `Clock.VirtualClock.EventTime` | oasis/clock/virtual_clock.py:127-200 | the result and the new maps are EventStep of the old state; the result is Stamp of the old state, so it depends only on seed, tick, the (tick, agent) counter and the tick's used set; it is > parent; without a parent it is in the tick range; on spill it is parent + 1 and both maps are unchanged; otherwise the used set of this tick gains exactly the result, other ticks keep theirs, and the (tick, agent) counter goes up by one; a free second in range means the result is fresh |
| `Clock.VirtualClock.ResolveCollision` | oasis/clock/virtual_clock.py:189-197 | the probe loop returns what the recursive Probe with max_attempts = range size returns; the result stays in [min_time, max_time] and is unused whenever some second of that range is unused |
| `Clock.VirtualClock.ToDatetime` | oasis/clock/virtual_clock.py:202-215 | the instant of an offset is the epoch plus that offset: offset 0 is the epoch itself, and non-negative offsets are exactly those at or after the epoch |
| `Clock.VirtualClock.FromDatetime` | oasis/clock/virtual_clock.py:229-240 | from_datetime inverts to_datetime: the instant of the returned offset is the given instant |
| `Clock.VirtualClock.DatetimeRoundTrip` | oasis/clock/virtual_clock.py:202-240 | from_datetime(to_datetime(v)) == v for every integer v of the unbounded model (see Left out for datetime's bounded range) |
| `Clock.VirtualClock.TimeStep` | oasis/clock/virtual_clock.py:245-253 | the legacy time_step reads back the current tick |
| `Clock.VirtualClock.SetTimeStep` | oasis/clock/virtual_clock.py:255-258 | the legacy setter writes the tick directly, so the getter reads back the value set; unlike AdvanceTick it leaves the counter map (and the used seconds) as they were, so the counters stay keyed by the tick they were made in |
| `Clock.VirtualClock.TimeTransfer` | oasis/clock/virtual_clock.py:269-288 | whatever its two arguments, the legacy transfer returns the instant of the current tick's start |
| `Clock.VirtualClock.Reset` | oasis/clock/virtual_clock.py:290-299 | tick is 0 and both maps are empty; seed, epoch and duration are constant fields and are kept |
| `ClockScenarios.PostThenReply` | oasis/clock/virtual_clock.py:54-60 | with a day-long tick, a post at tick 0 is in [0, 86399]; its reply is later, inside the day unless the post took second 86399, and then exactly 86400 |
| `ClockScenarios.EventAfterAdvance` | oasis/clock/virtual_clock.py:62-65 | after one advance a parentless event lies in [86400, 172799] |
| `ClockScenarios.SpillAtTickEnd` | oasis/clock/virtual_clock.py:171-175 | a parent at second 86399 of tick 0 gives exactly 86400 |
| `ClockScenarios.SpilledRepliesCoincide` | oasis/clock/virtual_clock.py:171-175 | spilled stamps are not recorded: two replies to a parent at second 86399 of a day-long tick both get 86400 |
| `ClockScenarios.NearEndRepliesCoincide` | oasis/clock/virtual_clock.py:163-199 | two replies to a parent at second 86398 of a day-long tick both get 86399, although seconds 0 to 86398 are free: the probe searches only from the parent plus one to the tick end |
| `ClockScenarios.DistinctWithinTick` | oasis/clock/virtual_clock.py:189-199 | up to tick_duration_s parentless events in one tick (none included) get pairwise different seconds, all inside that tick |
| `ClockScenarios.SameStateSameStamp` | oasis/clock/virtual_clock.py:177-197 | two clocks that agree on seed, duration, tick, the agent's counter and the tick's used set return the same stamp |
| `ClockScenarios.Run` | oasis/clock/virtual_clock.py:94-200 | the stamps of a sequence of advances and events are a function of the clock's state before the run: each event applies EventStep, the same step EventTime is specified by, and each advance moves the tick and empties the counters; there is exactly one stamp per Event command |
| `ClockScenarios.StampsLength` | oasis/clock/virtual_clock.py:159-200 | every call of event_time returns a stamp, spilled or not, so a run yields as many stamps as it has Event commands |
| `ClockScenarios.ReplayAfterReset` | oasis/clock/virtual_clock.py:290-299 | after any history and Reset, a clock gives the same stamps as a fresh clock with the same configuration |

## Left out

- Clock.Draw: does not reproduce Python's `hash` of the tuple or `random.Random(...).randint`. Those are foreign library calls, and CPython salts string hashes per process. A fixed mixing function (`Mix`, `HintCode`) stands in for them. The model proves the draw's range and its determinism, not its distribution or its concrete values.
- Clock.VirtualClock.EventTime: requires a parent or a positive duration. Without either, the source crashes with `TypeError` (line 175) instead of returning.
- The `_rng` field (lines 80, 90, 297) is seeded but never produces output, so it is not modelled.
- `to_iso_string`, `get_time_step` and `__str__` are left out. They are calendar and string formatting, and the model has no calendar.
- Clock.VirtualClock.ToDatetime: instants are unbounded integers, so datetime's range of years 1 to 9999 is not modelled. The source raises `OverflowError` at line 215 when `epoch + timedelta(seconds=v)` leaves that range; `TimeTransfer` inherits this for a large tick (line 288). The model's `ToDatetime`, `TimeTransfer` and `DatetimeRoundTrip` are total, so the round trip is claimed for every integer.
- `datetime` and `timedelta` are integer seconds. The float `total_seconds()` and its truncation by `int()` (line 240) matter only for sub-second instants, which the model does not have.
- Python's default arguments (`n=1`, `parent_time=None`, `action_hint=""`) are not modelled. Callers pass every argument.
- Update in place of the shared `used` set, which `setdefault` hands out, is modelled as reassigning the map entry. Nothing else holds a reference to that set.
- A direct write to the public `tick` field has the same effect as `SetTimeStep`, so it is not modelled separately.
