/** A model of the deterministic tick clock of a discrete-event social simulation.
    Time is a logical tick that moves only on command; within a tick every event gets
    a virtual second (an integer offset from a fixed epoch) that is reproducible,
    strictly after its causal parent, and not yet used in this tick while some second
    from its lower bound (the tick start, or the parent plus one) to the tick end is free. */
module Clock {

  datatype Option<T> = None | Some(value: T)

  // ---------------------------------------------------------------------------
  // The per-event draw. The source hashes the tuple (seed, tick, agent, hint,
  // index) and seeds a fresh random generator with it; here a fixed mixing
  // function stands in for both, so the draw is a pure function of that tuple.
  // ---------------------------------------------------------------------------

  /** A fixed polynomial code of the action hint. */
  function HintCode(hint: string): nat
  {
    if |hint| == 0 then 0 else HintCode(hint[..|hint| - 1]) * 31 + (hint[|hint| - 1] as int)
  }

  /** The stand-in for the hash of the event identity. */
  function Mix(seed: int, tick: int, agent: int, hint: string, index: nat): int
  {
    seed * 1_000_003 + tick * 8_191 + agent * 131 + HintCode(hint) * 17 + index
  }

  /** The candidate second of an event, drawn from the inclusive range [lo, hi]. */
  function Draw(seed: int, tick: int, agent: int, hint: string, index: nat, lo: int, hi: int): (r: int)
    requires lo <= hi
    ensures lo <= r <= hi
  {
    lo + Mix(seed, tick, agent, hint, index) % (hi - lo + 1)
  }

  // ---------------------------------------------------------------------------
  // The uniqueness probe: from the candidate, step forward one second at a time,
  // wrapping from hi back to lo, until a second not yet used is found or the
  // attempts run out.
  // ---------------------------------------------------------------------------

  /** One probe step: the next second, wrapping around inside [lo, hi]. */
  function Next(g: int, lo: int, hi: int): (r: int)
    requires lo <= g <= hi
    ensures lo <= r <= hi
    ensures g < hi ==> r == g + 1
    ensures g == hi ==> r == lo
  {
    if g + 1 > hi then lo else g + 1
  }

  /** What the probe loop returns when it starts at g with `fuel` attempts left. */
  function Probe(used: set<int>, g: int, lo: int, hi: int, fuel: nat): (r: int)
    requires lo <= g <= hi
    ensures lo <= r <= hi
    ensures g !in used ==> r == g
    decreases fuel
  {
    if g in used && fuel > 0 then Probe(used, Next(g, lo, hi), lo, hi, fuel - 1) else g
  }

  /** The cyclic distance from g to v inside [lo, hi]: how many probe steps lead from g to v. */
  function Steps(g: int, v: int, lo: int, hi: int): (k: int)
    requires lo <= g <= hi && lo <= v <= hi
    ensures 0 <= k <= hi - lo
    ensures k == 0 <==> v == g
  {
    if v >= g then v - g else v - g + (hi - lo + 1)
  }

  /** A probe step brings every other second of the range one step closer. */
  lemma StepsNext(g: int, v: int, lo: int, hi: int)
    requires lo <= g <= hi && lo <= v <= hi && v != g
    ensures Steps(Next(g, lo, hi), v, lo, hi) == Steps(g, v, lo, hi) - 1
  {
  }

  /** If some second of the range is free and the probe has enough attempts to reach it,
      the probe returns a free second. */
  lemma {:induction false} ProbeFindsFree(used: set<int>, g: int, v: int, lo: int, hi: int, fuel: nat)
    requires lo <= g <= hi && lo <= v <= hi
    requires v !in used
    requires Steps(g, v, lo, hi) < fuel
    ensures Probe(used, g, lo, hi, fuel) !in used
    decreases fuel
  {
    if g in used {
      StepsNext(g, v, lo, hi);
      ProbeFindsFree(used, Next(g, lo, hi), v, lo, hi, fuel - 1);
    }
  }

  /** The probe returns the first free second in cyclic order from the candidate:
      every second it passed over was already used. */
  lemma {:induction false} ProbeFirstFree(used: set<int>, g: int, v: int, lo: int, hi: int, fuel: nat)
    requires lo <= g <= hi && lo <= v <= hi
    requires Steps(g, v, lo, hi) < Steps(g, Probe(used, g, lo, hi, fuel), lo, hi)
    ensures v in used
    decreases fuel
  {
    var r := Probe(used, g, lo, hi, fuel);
    if v != g {
      StepsNext(g, v, lo, hi);
      StepsNext(g, r, lo, hi);
      ProbeFirstFree(used, Next(g, lo, hi), v, lo, hi, fuel - 1);
    }
  }

  /** When every second of the range is used, k attempts (k at most the range size)
      move the probe k seconds forward, wrapping once. */
  lemma {:induction false} ProbeAllUsed(used: set<int>, g: int, lo: int, hi: int, k: nat)
    requires lo <= g <= hi
    requires k <= hi - lo + 1
    requires forall v :: lo <= v <= hi ==> v in used
    ensures Probe(used, g, lo, hi, k) == if g + k <= hi then g + k else g + k - (hi - lo + 1)
    decreases k
  {
    if k > 0 {
      ProbeAllUsed(used, Next(g, lo, hi), lo, hi, k - 1);
    }
  }

  /** With the range fully used, a probe with as many attempts as the range has seconds
      comes back to the candidate: the collision is accepted. */
  lemma ProbeExhausted(used: set<int>, g: int, lo: int, hi: int)
    requires lo <= g <= hi
    requires forall v :: lo <= v <= hi ==> v in used
    ensures Probe(used, g, lo, hi, hi - lo + 1) == g
  {
    ProbeAllUsed(used, g, lo, hi, hi - lo + 1);
  }

  // ---------------------------------------------------------------------------
  // Ranges of seconds
  // ---------------------------------------------------------------------------

  /** The seconds lo, lo + 1, ..., hi. */
  function Seconds(lo: int, hi: int): (s: set<int>)
    ensures forall v :: v in s <==> lo <= v <= hi
    decreases hi - lo
  {
    if lo > hi then {} else Seconds(lo, hi - 1) + {hi}
  }

  /** An inclusive range of seconds holds hi - lo + 1 of them. */
  lemma {:induction false} SecondsCount(lo: int, hi: int)
    requires lo <= hi + 1
    ensures |Seconds(lo, hi)| == hi - lo + 1
    decreases hi - lo
  {
    if lo <= hi {
      SecondsCount(lo, hi - 1);
    }
  }

  /** A used set smaller than the range leaves a second of the range free. */
  lemma FreeSecondExists(used: set<int>, lo: int, hi: int) returns (v: int)
    requires lo <= hi + 1
    requires |used| < hi - lo + 1
    ensures lo <= v <= hi && v !in used
  {
    SecondsCount(lo, hi);
    var free := Seconds(lo, hi) - used;
    assert |free| > 0 by {
      assert |Seconds(lo, hi) * used| <= |used|;
    }
    v :| v in free;
  }

  // ---------------------------------------------------------------------------
  // Timestamp synthesis as a function of the state it reads
  // ---------------------------------------------------------------------------

  /** The earliest second an event may take: right after its parent, or the tick start. */
  function MinTime(tickStart: int, parent: Option<int>): (m: int)
    ensures parent.Some? ==> m > parent.value
    ensures parent.None? ==> m == tickStart
  {
    match parent
    case Some(p) => p + 1
    case None => tickStart
  }

  /** The second an event is stamped with, given the clock's seed and tick, the current
      tick's range, the number of earlier stamps of the agent in this tick, and the
      seconds already used in this tick. */
  function Stamp(seed: int, tick: int, agent: int, hint: string, index: nat,
                 tickStart: int, tickEnd: int, parent: Option<int>, used: set<int>): (r: int)
    requires parent.Some? || tickStart <= tickEnd
    ensures parent.Some? ==> r > parent.value
    ensures parent.None? ==> tickStart <= r <= tickEnd
    ensures MinTime(tickStart, parent) <= tickEnd ==> MinTime(tickStart, parent) <= r <= tickEnd
    ensures MinTime(tickStart, parent) > tickEnd ==> r == parent.value + 1
  {
    var lo := MinTime(tickStart, parent);
    if lo > tickEnd then
      parent.value + 1
    else
      Probe(used, Draw(seed, tick, agent, hint, index, lo, tickEnd), lo, tickEnd, tickEnd - lo + 1)
  }

  /** On the normal path, if a second in [min, tickEnd] is still free, the stamp is one
      that was not used before. */
  lemma StampFresh(seed: int, tick: int, agent: int, hint: string, index: nat,
                   tickStart: int, tickEnd: int, parent: Option<int>, used: set<int>, v: int)
    requires parent.Some? || tickStart <= tickEnd
    requires MinTime(tickStart, parent) <= v <= tickEnd && v !in used
    ensures Stamp(seed, tick, agent, hint, index, tickStart, tickEnd, parent, used) !in used
  {
    var lo := MinTime(tickStart, parent);
    var g := Draw(seed, tick, agent, hint, index, lo, tickEnd);
    ProbeFindsFree(used, g, v, lo, tickEnd, tickEnd - lo + 1);
  }

  /** On the normal path, every second between the drawn candidate and the stamp
      (in cyclic order) was already used. */
  lemma StampFirstFree(seed: int, tick: int, agent: int, hint: string, index: nat,
                       tickStart: int, tickEnd: int, parent: Option<int>, used: set<int>, v: int)
    requires parent.Some? || tickStart <= tickEnd
    requires MinTime(tickStart, parent) <= v <= tickEnd
    requires var lo := MinTime(tickStart, parent);
             var g := Draw(seed, tick, agent, hint, index, lo, tickEnd);
             Steps(g, v, lo, tickEnd) < Steps(g, Stamp(seed, tick, agent, hint, index, tickStart, tickEnd, parent, used), lo, tickEnd)
    ensures v in used
  {
    var lo := MinTime(tickStart, parent);
    var g := Draw(seed, tick, agent, hint, index, lo, tickEnd);
    ProbeFirstFree(used, g, v, lo, tickEnd, tickEnd - lo + 1);
  }

  /** On the normal path with [min, tickEnd] fully used, the stamp is the drawn candidate
      itself (a tolerated collision). */
  lemma StampExhausted(seed: int, tick: int, agent: int, hint: string, index: nat,
                       tickStart: int, tickEnd: int, parent: Option<int>, used: set<int>)
    requires parent.Some? || tickStart <= tickEnd
    requires MinTime(tickStart, parent) <= tickEnd
    requires forall v :: MinTime(tickStart, parent) <= v <= tickEnd ==> v in used
    ensures Stamp(seed, tick, agent, hint, index, tickStart, tickEnd, parent, used)
         == Draw(seed, tick, agent, hint, index, MinTime(tickStart, parent), tickEnd)
  {
    var lo := MinTime(tickStart, parent);
    ProbeExhausted(used, Draw(seed, tick, agent, hint, index, lo, tickEnd), lo, tickEnd);
  }

  // ---------------------------------------------------------------------------
  // The bookkeeping one call of event_time reads and writes
  // ---------------------------------------------------------------------------

  /** The per-(tick, agent) call counters and the per-tick sets of issued seconds. */
  datatype Books = Books(counter: map<(int, int), nat>, used: map<int, set<int>>)

  /** Stamps already issued to `agent` in tick `tick` (a missing entry counts as 0). */
  function CountIn(counter: map<(int, int), nat>, tick: int, agent: int): nat
  {
    if (tick, agent) in counter then counter[(tick, agent)] else 0
  }

  /** Seconds already issued in tick `tick` (a missing entry is the empty set). */
  function UsedIn(used: map<int, set<int>>, tick: int): set<int>
  {
    if tick in used then used[tick] else {}
  }

  /** One call of event_time: the stamp, and the bookkeeping after it. On spill nothing is
      recorded; otherwise exactly the agent's counter of this tick goes up by one and exactly
      this tick's set gains the stamp. */
  function EventStep(seed: int, tick: int, tickStart: int, tickEnd: int, books: Books,
                     agent: int, parent: Option<int>, hint: string): (out: (int, Books))
    requires parent.Some? || tickStart <= tickEnd
    ensures out.0 == Stamp(seed, tick, agent, hint, CountIn(books.counter, tick, agent),
                           tickStart, tickEnd, parent, UsedIn(books.used, tick))
    ensures MinTime(tickStart, parent) > tickEnd ==> out.1 == books
    ensures MinTime(tickStart, parent) <= tickEnd ==>
      && CountIn(out.1.counter, tick, agent) == CountIn(books.counter, tick, agent) + 1
      && UsedIn(out.1.used, tick) == UsedIn(books.used, tick) + {out.0}
  {
    var index := CountIn(books.counter, tick, agent);
    var usedHere := UsedIn(books.used, tick);
    var r := Stamp(seed, tick, agent, hint, index, tickStart, tickEnd, parent, usedHere);
    if MinTime(tickStart, parent) > tickEnd then
      (r, books)
    else
      (r, Books(books.counter[(tick, agent) := index + 1], books.used[tick := usedHere + {r}]))
  }

  /** One call of event_time touches no other counter and no other tick's set. */
  lemma EventStepFrame(seed: int, tick: int, tickStart: int, tickEnd: int, books: Books,
                       agent: int, parent: Option<int>, hint: string, otherTick: int, otherAgent: int)
    requires parent.Some? || tickStart <= tickEnd
    ensures var out := EventStep(seed, tick, tickStart, tickEnd, books, agent, parent, hint);
      (otherTick, otherAgent) != (tick, agent) ==>
        CountIn(out.1.counter, otherTick, otherAgent) == CountIn(books.counter, otherTick, otherAgent)
    ensures var out := EventStep(seed, tick, tickStart, tickEnd, books, agent, parent, hint);
      otherTick != tick ==> UsedIn(out.1.used, otherTick) == UsedIn(books.used, otherTick)
  {
  }

  // ---------------------------------------------------------------------------
  // The clock
  // ---------------------------------------------------------------------------

  class VirtualClock {
    /** Length of one tick in virtual seconds. */
    const tickDuration: int
    /** The instant of virtual second 0, in seconds. */
    const epoch: int
    /** Seed of every per-event draw. */
    const seed: int

    var tick: int
    /** Number of stamps issued so far to (tick, agent). */
    var eventCounter: map<(int, int), nat>
    /** Seconds already issued, per tick. */
    var usedTimes: map<int, set<int>>

    constructor (tickDuration: int, epoch: int, seed: int, tick: int)
      ensures this.tickDuration == tickDuration && this.epoch == epoch && this.seed == seed
      ensures this.tick == tick && eventCounter == map[] && usedTimes == map[]
    {
      this.tickDuration := tickDuration;
      this.epoch := epoch;
      this.seed := seed;
      this.tick := tick;
      eventCounter := map[];
      usedTimes := map[];
    }

    /** Stamps already issued to `agent` in the current tick. */
    function CountOf(agent: int): nat
      reads this
    {
      CountIn(eventCounter, tick, agent)
    }

    /** Seconds already issued in tick `t`. */
    function UsedAt(t: int): set<int>
      reads this
    {
      UsedIn(usedTimes, t)
    }

    method AdvanceTick(n: int)
      modifies this
      ensures tick == old(tick) + n
      ensures eventCounter == map[] && usedTimes == old(usedTimes)
      ensures n >= 1 ==> tick > old(tick)
      ensures TickStart() == old(TickStart()) + n * tickDuration
      ensures n == 1 ==> TickStart() == old(TickEnd()) + 1
    {
      tick := tick + n;
      eventCounter := map[];
    }

    /** The first second of the current tick. */
    function TickStart(): (s: int)
      reads this
      ensures s == tick * tickDuration
    {
      tick * tickDuration
    }

    /** The last second of the current tick, inclusive: the tick covers tickDuration
        seconds from its start. */
    function TickEnd(): (e: int)
      reads this
      ensures e - TickStart() + 1 == tickDuration
    {
      TickStart() + tickDuration - 1
    }

    /** The end of the current tick is one second before the start of the next tick. */
    lemma TickEndBeforeNextTick()
      ensures TickEnd() == (tick + 1) * tickDuration - 1
    {
    }

    /** The current tick spans exactly tickDuration seconds. */
    lemma TickRangeSize()
      requires tickDuration > 0
      ensures |Seconds(TickStart(), TickEnd())| == tickDuration
    {
      SecondsCount(TickStart(), TickEnd());
    }

    /** Whether an event with this parent spills past the end of the current tick. */
    predicate Spills(parentTime: Option<int>)
      reads this
    {
      MinTime(TickStart(), parentTime) > TickEnd()
    }

    method EventTime(agentId: int, parentTime: Option<int>, actionHint: string) returns (r: int)
      requires parentTime.Some? || tickDuration > 0
      modifies this
      ensures tick == old(tick)
      ensures r == Stamp(seed, tick, agentId, actionHint, old(CountOf(agentId)),
                         TickStart(), TickEnd(), parentTime, old(UsedAt(tick)))
      ensures (r, Books(eventCounter, usedTimes))
           == EventStep(seed, tick, TickStart(), TickEnd(), Books(old(eventCounter), old(usedTimes)),
                        agentId, parentTime, actionHint)
      ensures parentTime.Some? ==> r > parentTime.value
      ensures parentTime.None? ==> TickStart() <= r <= TickEnd()
      ensures Spills(parentTime) ==>
        r == parentTime.value + 1 && eventCounter == old(eventCounter) && usedTimes == old(usedTimes)
      ensures !Spills(parentTime) ==>
        && MinTime(TickStart(), parentTime) <= r <= TickEnd()
        && eventCounter == old(eventCounter)[(tick, agentId) := old(CountOf(agentId)) + 1]
        && usedTimes == old(usedTimes)[tick := old(UsedAt(tick)) + {r}]
      ensures !Spills(parentTime) && (exists v :: MinTime(TickStart(), parentTime) <= v <= TickEnd() && v !in old(UsedAt(tick)))
        ==> r !in old(UsedAt(tick))
    {
      var tickStart := TickStart();
      var tickEnd := TickEnd();
      var minTime := if parentTime.Some? then parentTime.value + 1 else tickStart;
      var maxTime := tickEnd;
      assert minTime == MinTime(tickStart, parentTime);
      if minTime > maxTime {
        return parentTime.value + 1;
      }

      var key := (tick, agentId);
      var eventIndex := if key in eventCounter then eventCounter[key] else 0;
      eventCounter := eventCounter[key := eventIndex + 1];

      var candidate := Draw(seed, tick, agentId, actionHint, eventIndex, minTime, maxTime);
      var used := if tick in usedTimes then usedTimes[tick] else {};
      var generated := ResolveCollision(used, candidate, minTime, maxTime);
      usedTimes := usedTimes[tick := used + {generated}];
      r := generated;
      assert r == Stamp(seed, tick, agentId, actionHint, eventIndex, tickStart, tickEnd, parentTime, used);
    }

    /** The collision probe of event_time: step forward from the candidate, wrapping inside
        [minTime, maxTime], while the second is used and fewer than the range size attempts
        have been made. */
    static method ResolveCollision(used: set<int>, candidate: int, minTime: int, maxTime: int)
      returns (generated: int)
      requires minTime <= candidate <= maxTime
      ensures generated == Probe(used, candidate, minTime, maxTime, maxTime - minTime + 1)
      ensures minTime <= generated <= maxTime
      ensures (exists v :: minTime <= v <= maxTime && v !in used) ==> generated !in used
    {
      generated := candidate;
      var attempts := 0;
      var maxAttempts := maxTime - minTime + 1;
      while generated in used && attempts < maxAttempts
        invariant 0 <= attempts <= maxAttempts
        invariant minTime <= generated <= maxTime
        invariant Probe(used, generated, minTime, maxTime, maxAttempts - attempts)
               == Probe(used, candidate, minTime, maxTime, maxAttempts)
        decreases maxAttempts - attempts
      {
        generated := generated + 1;
        if generated > maxTime {
          generated := minTime;
        }
        attempts := attempts + 1;
      }
      if v :| minTime <= v <= maxTime && v !in used {
        ProbeFindsFree(used, candidate, v, minTime, maxTime, maxAttempts);
      }
    }

    /** The instant of a virtual second: the epoch shifted by that many seconds. */
    function ToDatetime(virtualTime: int): (dt: int)
      ensures dt == epoch <==> virtualTime == 0
      ensures dt >= epoch <==> virtualTime >= 0
    {
      epoch + virtualTime
    }

    /** Back from an instant to virtual seconds: the inverse of ToDatetime. */
    function FromDatetime(dt: int): (v: int)
      ensures ToDatetime(v) == dt
    {
      dt - epoch
    }

    lemma DatetimeRoundTrip(v: int)
      ensures FromDatetime(ToDatetime(v)) == v
    {
    }

    /** The legacy name of the current tick. */
    function TimeStep(): (t: int)
      reads this
      ensures t == tick
    {
      tick
    }

    /** The legacy setter: writes the tick directly, without clearing the counters. */
    method SetTimeStep(value: int)
      modifies this
      ensures tick == value && TimeStep() == value
      ensures eventCounter == old(eventCounter) && usedTimes == old(usedTimes)
    {
      tick := value;
    }

    /** The legacy transfer: the instant of the current tick's start, whatever the arguments. */
    function TimeTransfer(nowTime: int, startTime: int): (dt: int)
      reads this
      ensures FromDatetime(dt) == TickStart()
    {
      ToDatetime(TickStart())
    }

    method Reset()
      modifies this
      ensures tick == 0 && eventCounter == map[] && usedTimes == map[]
    {
      tick := 0;
      eventCounter := map[];
      usedTimes := map[];
    }
  }
}
