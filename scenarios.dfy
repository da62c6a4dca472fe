/** Clients of the clock: what a simulation driver can rely on from the contracts alone. */
module ClockScenarios {
  import opened Clock

  /** A step of a simulation driver. */
  datatype Command =
    | Advance(n: int)
    | Event(agent: int, parent: Option<int>, hint: string)

  /** A post and a reply to it in tick 0 of a day-long tick: the post lies in the first day,
      the reply is strictly later, and it leaves the day only when the post took its last second. */
  method PostThenReply(epoch: int, seed: int, author: int, replier: int) returns (post: int, reply: int)
    ensures 0 <= post <= 86399
    ensures reply > post
    ensures post < 86399 ==> reply <= 86399
    ensures post == 86399 ==> reply == 86400
  {
    var clock := new VirtualClock(86400, epoch, seed, 0);
    post := clock.EventTime(author, None, "create_post");
    reply := clock.EventTime(replier, Some(post), "comment");
  }

  /** After one advance, an event without a parent lies in the second day. */
  method EventAfterAdvance(epoch: int, seed: int, agent: int) returns (t: int)
    ensures 86400 <= t <= 172799
  {
    var clock := new VirtualClock(86400, epoch, seed, 0);
    clock.AdvanceTick(1);
    t := clock.EventTime(agent, None, "");
  }

  /** A parent at the last second of tick 0 gets a child one second into tick 1. */
  method SpillAtTickEnd(epoch: int, seed: int, agent: int, hint: string) returns (t: int)
    ensures t == 86400
  {
    var clock := new VirtualClock(86400, epoch, seed, 0);
    t := clock.EventTime(agent, Some(86399), hint);
  }

  /** A spilled stamp is not recorded, so two replies to the last second of a tick both
      get the first second after it. */
  method SpilledRepliesCoincide(epoch: int, seed: int, agent1: int, agent2: int, hint: string)
    returns (first: int, second: int)
    ensures first == 86400 && second == 86400
  {
    var clock := new VirtualClock(86400, epoch, seed, 0);
    first := clock.EventTime(agent1, Some(86399), hint);
    second := clock.EventTime(agent2, Some(86399), hint);
  }

  /** Uniqueness is searched only from the parent plus one to the tick end: two replies to
      the second-to-last second of a tick both get the last second, on the normal path,
      while the earlier seconds of the tick are still free. */
  method NearEndRepliesCoincide(epoch: int, seed: int, agent1: int, agent2: int, hint: string)
    returns (first: int, second: int)
    ensures first == 86399 && second == 86399
  {
    var clock := new VirtualClock(86400, epoch, seed, 0);
    first := clock.EventTime(agent1, Some(86398), hint);
    assert clock.UsedAt(0) == {86399};
    second := clock.EventTime(agent2, Some(86398), hint);
  }

  /** Within one tick, as many parentless events as the tick has seconds all get
      different seconds of that tick. */
  method DistinctWithinTick(duration: int, epoch: int, seed: int, tick: int, agents: seq<int>, hint: string)
    returns (stamps: seq<int>)
    requires |agents| <= duration
    ensures |stamps| == |agents|
    ensures forall j :: 0 <= j < |stamps| ==> tick * duration <= stamps[j] <= tick * duration + duration - 1
    ensures forall j, k :: 0 <= j < k < |stamps| ==> stamps[j] != stamps[k]
  {
    var clock := new VirtualClock(duration, epoch, seed, tick);
    stamps := [];
    for i := 0 to |agents|
      invariant |stamps| == i
      invariant clock.tick == tick
      invariant |clock.UsedAt(tick)| == i
      invariant forall j :: 0 <= j < i ==> stamps[j] in clock.UsedAt(tick)
      invariant forall j :: 0 <= j < i ==> tick * duration <= stamps[j] <= tick * duration + duration - 1
      invariant forall j, k :: 0 <= j < k < i ==> stamps[j] != stamps[k]
    {
      ghost var before := clock.UsedAt(tick);
      ghost var free := FreeSecondExists(before, clock.TickStart(), clock.TickEnd());
      var r := clock.EventTime(agents[i], None, hint);
      assert r !in before;
      stamps := stamps + [r];
    }
  }

  /** Two clocks that agree on configuration, tick, the agent's counter and the tick's used
      seconds stamp the same event with the same second. */
  method SameStateSameStamp(a: VirtualClock, b: VirtualClock, agent: int, parent: Option<int>, hint: string)
    returns (ra: int, rb: int)
    requires a != b
    requires a.seed == b.seed && a.tickDuration == b.tickDuration && a.tick == b.tick
    requires a.CountOf(agent) == b.CountOf(agent) && a.UsedAt(a.tick) == b.UsedAt(b.tick)
    requires parent.Some? || a.tickDuration > 0
    modifies a, b
    ensures ra == rb
  {
    ra := a.EventTime(agent, parent, hint);
    rb := b.EventTime(agent, parent, hint);
  }

  /** Running the same commands on a fresh clock and on a used clock after Reset gives
      the same stamps. */
  method ReplayAfterReset(duration: int, epoch: int, seed: int, history: seq<Command>, commands: seq<Command>)
    returns (first: seq<int>, replayed: seq<int>)
    requires duration > 0
    ensures first == replayed
  {
    var a := new VirtualClock(duration, epoch, seed, 0);
    var b := new VirtualClock(duration, epoch, seed, 0);
    var ignored := Run(b, history);
    b.Reset();
    first := Run(a, commands);
    replayed := Run(b, commands);
  }

  /** Runs commands on a clock and collects the stamps of its events; the stamps depend
      only on the clock's state before the run. */
  method Run(clock: VirtualClock, commands: seq<Command>) returns (stamps: seq<int>)
    requires clock.tickDuration > 0
    modifies clock
    ensures |stamps| == EventCount(commands)
    ensures stamps == Stamps(clock.tickDuration, clock.seed, old(clock.tick), old(clock.eventCounter), old(clock.usedTimes), commands)
  {
    stamps := [];
    ghost var t, counter, used := clock.tick, clock.eventCounter, clock.usedTimes;
    for i := 0 to |commands|
      invariant |stamps| <= i
      invariant stamps + Stamps(clock.tickDuration, clock.seed, clock.tick, clock.eventCounter, clock.usedTimes, commands[i..])
             == Stamps(clock.tickDuration, clock.seed, t, counter, used, commands)
    {
      assert commands[i..][0] == commands[i] && commands[i..][1..] == commands[i + 1..];
      ghost var tickBefore, counterBefore, usedBefore := clock.tick, clock.eventCounter, clock.usedTimes;
      match commands[i]
      case Advance(n) =>
        clock.AdvanceTick(n);
        assert Stamps(clock.tickDuration, clock.seed, tickBefore, counterBefore, usedBefore, commands[i..])
            == Stamps(clock.tickDuration, clock.seed, clock.tick, clock.eventCounter, clock.usedTimes, commands[i + 1..]);
      case Event(agent, parent, hint) =>
        var r := clock.EventTime(agent, parent, hint);
        assert Stamps(clock.tickDuration, clock.seed, tickBefore, counterBefore, usedBefore, commands[i..])
            == [r] + Stamps(clock.tickDuration, clock.seed, clock.tick, clock.eventCounter, clock.usedTimes, commands[i + 1..]);
        stamps := stamps + [r];
    }
    StampsLength(clock.tickDuration, clock.seed, t, counter, used, commands);
  }

  /** The number of Event commands in a run. */
  function EventCount(commands: seq<Command>): nat
  {
    if commands == [] then 0
    else (if commands[0].Event? then 1 else 0) + EventCount(commands[1..])
  }

  /** A run yields exactly one stamp per Event command, spilled or not. */
  lemma {:induction false} StampsLength(duration: int, seed: int, tick: int, counter: map<(int, int), nat>,
                                        used: map<int, set<int>>, commands: seq<Command>)
    requires duration > 0
    ensures |Stamps(duration, seed, tick, counter, used, commands)| == EventCount(commands)
    decreases |commands|
  {
    if commands != [] {
      match commands[0]
      case Advance(n) =>
        StampsLength(duration, seed, tick + n, map[], used, commands[1..]);
      case Event(agent, parent, hint) =>
        var step := EventStep(seed, tick, tick * duration, tick * duration + duration - 1,
                              Books(counter, used), agent, parent, hint);
        StampsLength(duration, seed, tick, step.1.counter, step.1.used, commands[1..]);
    }
  }

  /** The stamps a run of commands produces from a given clock state. */
  ghost function Stamps(duration: int, seed: int, tick: int, counter: map<(int, int), nat>,
                        used: map<int, set<int>>, commands: seq<Command>): seq<int>
    requires duration > 0
    decreases |commands|
  {
    if commands == [] then []
    else match commands[0]
      case Advance(n) => Stamps(duration, seed, tick + n, map[], used, commands[1..])
      case Event(agent, parent, hint) =>
        var step := EventStep(seed, tick, tick * duration, tick * duration + duration - 1,
                              Books(counter, used), agent, parent, hint);
        [step.0] + Stamps(duration, seed, tick, step.1.counter, step.1.used, commands[1..])
  }
}
