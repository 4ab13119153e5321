/** The clock and the timer of src/timer.cpp, in milliseconds. */
module Timers {

  const WORD := 0x1_0000_0000

  // ---------- the clock ----------

  /** The 32-bit difference of two readings, as a signed int, between 0 and `maxDelta`. */
  function Delta(last: int, ticks: int, maxDelta: int): (d: int)
    requires maxDelta >= 1
    ensures 0 <= d <= maxDelta
  {
    var difference := (ticks - last) % WORD;
    if difference >= WORD / 2 then 0 else if difference > maxDelta then maxDelta else difference
  }

  /** Over less than half the range of a word the clock sees the true time, up to its limit, even when readings wrap. */
  lemma DeltaForward(last: int, elapsed: nat, maxDelta: int)
    requires maxDelta >= 1 && 0 <= last < WORD && elapsed < WORD / 2
    ensures Delta(last, (last + elapsed) % WORD, maxDelta) == if elapsed > maxDelta then maxDelta else elapsed
  {
  }

  /** A step back, by up to half the range, counts as no time at all. */
  lemma DeltaBackward(last: int, back: nat, maxDelta: int)
    requires maxDelta >= 1 && 0 <= last < WORD && 0 < back <= WORD / 2
    ensures Delta(last, (last - back) % WORD, maxDelta) == 0
  {
  }

  class Clock {
    var offset: int
    var last: int
    var maxDelta: int

    predicate Valid()
      reads this
    {
      maxDelta >= 1
    }

    constructor (ticks: int, maxDelta: int)
      ensures Valid() && offset == 0 && last == ticks
    {
      offset, last := 0, ticks;
      this.maxDelta := if maxDelta < 1 then 1000 else maxDelta;
    }

    method GetTime(ticks: int) returns (now: int)
      requires Valid()
      modifies this`offset, this`last
      ensures now == offset == old(offset) + Delta(old(last), ticks, maxDelta) && last == ticks
      ensures offset >= old(offset)
    {
      var difference := (ticks - last) % WORD;
      var delta := difference;
      if difference >= WORD / 2 {
        delta := 0;
      }
      if delta > maxDelta {
        delta := maxDelta;
      }
      last := ticks;
      offset := offset + delta;
      now := offset;
    }
  }

  // ---------- events ----------

  const FOREVER := -1

  class TimeEvent {
    const speed: nat
    var lasttime: int
    var lifetime: int
    ghost var start: int   // when it was registered last
    ghost var limit: int   // its lifetime then
    ghost var fired: nat   // how often it has been called since
    ghost var calls: nat   // how often it has ever been called

    constructor (speed: nat, lifetime: int)
      ensures fired == 0 && calls == 0 && limit == lifetime == this.lifetime
    {
      this.speed := speed;
      lasttime, this.lifetime := 0, lifetime;
      start, limit, fired, calls := 0, lifetime, 0, 0;
    }

    /** Called `fired` times, so that many periods have passed; and no more than its lifetime allows. */
    ghost predicate Bounded(now: int)
      reads this
    {
      && (fired > 0 ==> fired * speed < now - start)
      && (limit > 0 ==> fired <= limit)
    }

    ghost predicate Running(now: int)
      reads this
    {
      && start <= now
      && lasttime == start + fired * speed
      && (fired > 0 ==> lasttime < now)
      && lifetime != 0
      && (limit > 0 ==> lifetime > 0 && fired + lifetime == limit)
      && (limit < 0 ==> lifetime < 0)
    }

    /** What registering does to the event. */
    method Start(now: int)
      requires lifetime != 0
      modifies this
      ensures Bounded(now) && Running(now)
      ensures lasttime == now == start && limit == lifetime == old(lifetime) && fired == 0 && calls == old(calls)
    {
      lasttime := now;
      start, limit, fired := now, lifetime, 0;
    }
  }

  datatype Op = Register(e: TimeEvent, ticks: int) | Unregister(e: TimeEvent)

  class Timer {
    const clock: Clock
    var timers: set<TimeEvent>
    var execlist: set<TimeEvent>
    var changed: bool
    ghost const events: set<TimeEvent>  // all there are

    ghost predicate Valid()
      reads this, clock, events
    {
      && clock.Valid()
      && timers <= events
      && (!changed ==> execlist == timers)
      && (forall e :: e in events ==> e.Bounded(clock.offset))
      && (forall e :: e in timers ==> e.Running(clock.offset))
    }

    constructor (clock: Clock, ghost events: set<TimeEvent>)
      requires clock.Valid() && (forall e :: e in events ==> e.fired == 0)
      ensures Valid() && this.clock == clock && this.events == events && timers == {}
    {
      this.clock := clock;
      this.events := events;
      timers, execlist, changed := {}, {}, false;
    }

    /**
     What being valid promises about an event: `k` calls since it was registered need more than `k` periods, and a
     positive lifetime is never exceeded; while it is waiting, its next call is due one period after its last.
     */
    lemma Promised(e: TimeEvent)
      requires Valid() && e in events
      ensures e.fired > 0 ==> e.fired * e.speed < clock.offset - e.start
      ensures e.limit > 0 ==> e.fired <= e.limit
      ensures e in timers ==> e.lasttime == e.start + e.fired * e.speed && e.start <= clock.offset && e.lifetime != 0
      ensures e in timers && e.limit > 0 ==> e.fired + e.lifetime == e.limit && e.fired < e.limit
    {
    }

    /** Time passing keeps everything. */
    lemma Later(e: TimeEvent, then_: int, now: int)
      requires then_ <= now
      ensures e.Bounded(then_) ==> e.Bounded(now)
      ensures e.Running(then_) ==> e.Running(now)
    {
    }

    method GetTime(ticks: int) returns (now: int)
      requires Valid()
      modifies clock
      ensures Valid() && clock.offset == now >= old(clock.offset)
      ensures now == old(clock.offset) + Delta(old(clock.last), ticks, old(clock.maxDelta))
    {
      now := clock.GetTime(ticks);
      forall e | e in events
        ensures e.Bounded(now) && (e in timers ==> e.Running(now))
      {
        Later(e, old(clock.offset), now);
      }
    }

    method Register(e: TimeEvent, ticks: int)
      requires Valid() && e in events
      modifies this`timers, this`changed, clock, e
      ensures Valid() && clock.offset >= old(clock.offset)
      ensures e.lifetime == old(e.lifetime) && e.calls == old(e.calls)
      ensures
        if e.lifetime == 0 then timers == old(timers) && changed == old(changed) && e.lasttime == old(e.lasttime)
        else timers == old(timers) + {e} && e.lasttime == clock.offset && changed
    {
      hide TimeEvent.Bounded, TimeEvent.Running;
      if e.lifetime == 0 {
        return;
      }
      var now := GetTime(ticks);
      e.Start(now);
      changed := true;
      timers := timers + {e};
    }

    method Unregister(e: TimeEvent)
      requires Valid()
      modifies this`timers, this`changed
      ensures Valid() && timers == old(timers) - {e} && changed
    {
      changed := true;
      timers := timers - {e};
    }

    /**
     A callback: it may register and unregister any events, itself included. What it does not name it leaves alone.
     */
    method Callback(ops: seq<Op>)
      requires Valid() && (forall op :: op in ops ==> op.e in events)
      modifies this`timers, this`changed, clock, events
      ensures Valid() && clock.offset >= old(clock.offset)
      ensures forall e :: e in events ==> e.calls == old(e.calls)
      ensures forall e :: e in events && !Named(ops, e) ==> e.lasttime == old(e.lasttime)
      ensures forall e :: e in events && !Named(ops, e) ==> (e in timers <==> e in old(timers))
    {
      hide Valid;
      var i := 0;
      while i < |ops|
        invariant i <= |ops| && Valid() && clock.offset >= old(clock.offset)
        invariant forall e :: e in events ==> e.calls == old(e.calls)
        invariant forall e :: e in events && !Named(ops, e) ==> e.lasttime == old(e.lasttime)
        invariant forall e :: e in events && !Named(ops, e) ==> (e in timers <==> e in old(timers))
      {
        assert ops[i] in ops;
        match ops[i] {
          case Register(e, ticks) => Register(e, ticks);
          case Unregister(e) => Unregister(e);
        }
        i := i + 1;
      }
    }

    /** An event whose time has come, up to its callback. */
    method Fire(e: TimeEvent, now: int)
      requires Valid() && e in timers && e.lasttime + e.speed < now <= clock.offset
      modifies this`timers, this`changed, e
      ensures Valid() && e.calls == old(e.calls) + 1 && e.lasttime == old(e.lasttime) + e.speed
      ensures timers == if old(e.lifetime) == 1 then old(timers) - {e} else old(timers)
    {
      OneMore(e.fired, e.speed);
      e.lasttime := e.lasttime + e.speed;
      e.fired, e.calls := e.fired + 1, e.calls + 1;
      if e.lifetime != FOREVER {
        e.lifetime := e.lifetime - 1;
        if e.lifetime == 0 {
          changed := true;
          timers := timers - {e};
        }
      }
    }

    /** The start of a tick: the time, and a fresh copy of the timers if they have changed. */
    method Begin(ticks: int) returns (now: int)
      requires Valid()
      modifies this`execlist, this`changed, clock
      ensures Valid() && clock.offset == now >= old(clock.offset)
      ensures clock.Valid() && now == old(clock.offset) + Delta(old(clock.last), ticks, old(clock.maxDelta))
      ensures execlist == timers <= events
    {
      now := GetTime(ticks);
      if changed {
        execlist := timers;
        changed := false;
      }
    }

    /** One event of the list, with the callback it may run into; `ran` says whether it was called. */
    method Visit(e: TimeEvent, now: int, ops: seq<Op>) returns (ran: bool)
      requires Valid() && e in events && now <= clock.offset && (forall op :: op in ops ==> op.e in events)
      modifies this`timers, this`changed, clock, events
      ensures Valid() && clock.offset >= old(clock.offset)
      ensures ran == (e in old(timers) && old(e.lasttime) + e.speed < now)
      ensures forall f :: f in events ==> f.calls == old(f.calls) + (if ran && f == e then 1 else 0)
      ensures forall f :: f in events && f != e && !Named(ops, f) ==> f.lasttime == old(f.lasttime)
      ensures forall f :: f in events && f != e && !Named(ops, f) ==> (f in timers <==> f in old(timers))
    {
      hide TimeEvent.Bounded, TimeEvent.Running;
      ran := e in timers && e.lasttime + e.speed < now;
      if ran {
        Fire(e, now);
        Callback(ops);
      }
    }

    /**
     One tick, at the time `now`. Every event stays within its bounds whatever the callbacks in `script` do; none is
     called twice, or without having been registered when the tick began; and of those registered then that no
     callback names, exactly the ones that are due are called.
     */
    method Tick(ticks: int, script: seq<seq<Op>>) returns (now: int)
      requires Valid() && (forall ops, op :: ops in script && op in ops ==> op.e in events)
      modifies this`timers, this`execlist, this`changed, clock, events
      ensures Valid() && clock.offset >= now >= old(clock.offset)
      ensures now == old(clock.offset) + Delta(old(clock.last), ticks, old(clock.maxDelta))
      ensures forall e :: e in events ==> old(e.calls) <= e.calls <= old(e.calls) + 1
      ensures forall e :: e in events && e.calls > old(e.calls) ==> e in old(timers)
      ensures forall e :: e in old(timers) && !NamedIn(script, e) ==>
        e.calls == old(e.calls) + (if old(e.lasttime) + e.speed < now then 1 else 0)
    {
      hide Valid, Delta;
      now := Begin(ticks);
      ghost var all := execlist;
      var rest, next := execlist, 0;
      while rest != {}
        invariant Valid() && rest <= all <= events && all == old(timers) && now <= clock.offset
        invariant next <= |script|
        invariant forall e :: e in events ==>
          e.calls == old(e.calls) || (e.calls == old(e.calls) + 1 && e in all && e !in rest)
        invariant forall e :: e in rest && !NamedIn(script, e) ==> e in timers && e.lasttime == old(e.lasttime)
        invariant forall e :: e in all && e !in rest && !NamedIn(script, e) ==>
          e.calls == old(e.calls) + (if old(e.lasttime) + e.speed < now then 1 else 0)
        decreases rest
      {
        var e :| e in rest;
        rest := rest - {e};
        var ops := if next < |script| then script[next] else [];
        assert next < |script| ==> ops in script;
        var ran := Visit(e, now, ops);
        if ran && next < |script| {
          next := next + 1;
        }
      }
    }
  }

  ghost predicate Named(ops: seq<Op>, e: TimeEvent) {
    exists op :: op in ops && op.e == e
  }

  /** Some callback registers or unregisters the event. */
  ghost predicate NamedIn(script: seq<seq<Op>>, e: TimeEvent) {
    exists ops :: ops in script && Named(ops, e)
  }

  lemma OneMore(n: nat, speed: nat)
    ensures (n + 1) * speed == n * speed + speed
  {
  }
}
