/** The wedding ceremony of src/wedding.cpp: a state machine driven by a timer and by two "I do"s. */
module Wedding {

  // ---------- the timetable ----------

  const LAST := 13

  /** How many ticks a ceremony can spend in each state before it moves on or is given up. */
  function Length(state: nat): nat {
    match state
    case 1 => 20
    case 2 => 6
    case 3 => 6
    case 4 => 13
    case 5 => 7
    case 6 => 13
    case 7 => 1
    case 8 => 6
    case 9 => 6
    case 10 => 5
    case 11 => 1
    case 12 => 5
    case _ => 0
  }

  /** The states that wait for an "I do" and are given up when it does not come. */
  predicate AwaitsVow(state: nat) {
    state == 4 || state == 6
  }

  /** The ticks at which the ceremony looks whether everybody is still there, without moving on. */
  predicate Looks(state: nat, tick: int) {
    (AwaitsVow(state) && tick == 3) || (state == 5 && tick == 1)
  }

  /**
   What happened at the altar: in which ceremony, the names assigned, the ring both are given (0 for none), and
   whether each of the two had said "I do".
   */
  datatype Marriage =
    Marriage(ceremony: nat, partner1: string, partner2: string, ring: int, vow1: bool, vow2: bool)

  datatype Ceremony = Ceremony(
    state: nat,
    tick: int,
    partner1: string,
    partner2: string,
    timer: bool,
    vow1: bool,             // partner 1 said "I do" in this ceremony
    vow2: bool,
    marriages: seq<Marriage>,
    started: nat,           // ceremonies begun so far; the number of the current one
    ring: int)              // what the configuration says about rings

  // ---------- what each step does ----------

  function Reset(c: Ceremony): Ceremony {
    c.(state := 0, tick := 0, partner1 := "", partner2 := "", timer := false, vow1 := false, vow2 := false)
  }

  /** The marriage of the current ceremony. */
  function Joined(c: Ceremony): Marriage {
    Marriage(c.started, c.partner1, c.partner2, c.ring, c.vow1, c.vow2)
  }

  /** Entering a state: partners are joined on entering 8, and 13 ends the ceremony at once. */
  function Enter(c: Ceremony, state: nat): Ceremony {
    if state == LAST then Reset(c)
    else
      c.(state := state, tick := 0,
         marriages := if state == 8 then c.marriages + [Joined(c)] else c.marriages)
  }

  /** Moving on needs both partners and the priest; without them the ceremony is over. */
  function Advance(c: Ceremony, present: bool): Ceremony {
    if present then Enter(c, c.state + 1) else Reset(c)
  }

  function Ticked(c: Ceremony, present: bool): Ceremony {
    if c.state == 0 then c.(timer := false)
    else
      var d := c.(tick := c.tick + 1);
      if Looks(d.state, d.tick) && !present then Reset(d)
      else if d.tick == Length(d.state) then
        if AwaitsVow(d.state) then Reset(d) else Advance(d, present)
      else d
  }

  /** Which state a character's "I do" counts in; 0 if it does not. */
  function VowState(c: Ceremony, name: string): nat {
    if name == c.partner1 then 4 else if name == c.partner2 then 6 else 0
  }

  function Vowed(c: Ceremony, name: string, here: bool, present: bool): Ceremony {
    var required := VowState(c, name);
    if required == 0 || c.state != required || !here then c
    else Advance(if required == 4 then c.(vow1 := true) else c.(vow2 := true), present)
  }

  /** A busy priest refuses; otherwise the first tick follows at once and the timer is on in any case. */
  function Started(c: Ceremony, player1: string, player2: string, present: bool): Ceremony {
    if c.state > 0 then c
    else
      var d := c.(partner1 := player1, partner2 := player2, started := c.started + 1);
      Ticked(Advance(d, present), present).(timer := true)
  }

  // ---------- the class ----------

  class WeddingState {
    var state: nat
    var tick: int
    var partner1: string
    var partner2: string
    var timer: bool
    const ring: int

    ghost var vow1: bool
    ghost var vow2: bool
    ghost var marriages: seq<Marriage>
    ghost var started: nat

    ghost function Now(): Ceremony
      reads this
    {
      Ceremony(state, tick, partner1, partner2, timer, vow1, vow2, marriages, started, ring)
    }

    constructor (ring: int)
      ensures Now() == Ceremony(0, 0, "", "", false, false, false, [], 0, ring)
    {
      this.ring := ring;
      state, tick, partner1, partner2, timer := 0, 0, "", "", false;
      vow1, vow2, marriages, started := false, false, [], 0;
    }

    /** Tick number of a state the machine can be in between calls. */
    ghost predicate InTime()
      reads this
    {
      state < LAST && (state > 0 ==> 0 <= tick < Length(state))
    }

    method StartTimer()
      modifies this`timer
      ensures timer
    {
      if !timer {
        timer := true;
      }
    }

    method StopTimer()
      modifies this`timer
      ensures !timer
    {
      if timer {
        timer := false;
      }
    }

    method ResetAll()
      modifies this
      ensures Now() == Reset(old(Now()))
    {
      partner1 := "";
      partner2 := "";
      state := 0;
      tick := 0;
      StopTimer();
      vow1, vow2 := false, false;
    }

    /** Says so, and resets. */
    method ErrorOut()
      modifies this
      ensures Now() == Reset(old(Now()))
    {
      ResetAll();
    }

    method ChangeState(target: nat, present: bool)
      requires state <= target <= LAST && target > 0
      requires target < LAST ==> present
      modifies this
      ensures Now() == Enter(old(Now()), target)
      decreases 4 * (20 - target) + 4
    {
      state := target;
      tick := -1;
      Tick(present);
    }

    method NextState(present: bool)
      requires state < LAST
      modifies this
      ensures Now() == Advance(old(Now()), present)
      decreases 4 * (20 - state) + 2
    {
      var ok := Check(present);
      if !ok {
        return;
      }
      ChangeState(state + 1, present);
    }

    /** `present` stands for finding both partners and the priest on the map. */
    method Check(present: bool) returns (ok: bool)
      requires state < LAST
      modifies this
      ensures ok == present
      ensures Now() == if ok then old(Now()) else Reset(old(Now()))
      decreases 4 * (20 - state) + 1
    {
      if !present {
        if state < 8 {
          ErrorOut();
        } else {
          ChangeState(13, present);
        }
        return false;
      }
      ok := true;
    }

    /**
     Names, and rings if there are any. The partners are looked up without a test here: they were checked just
     before.
     */
    method Join()
      modifies this`marriages
      ensures marriages == old(marriages) + [Joined(Now())]
    {
      marriages := marriages + [Marriage(started, partner1, partner2, ring, vow1, vow2)];
    }

    method Tick(present: bool)
      requires state <= LAST && -1 <= tick
      requires state > 0 ==> tick < Length(state)
      requires state == LAST ==> tick == -1
      requires tick == -1 && 0 < state < LAST ==> present
      modifies this
      ensures old(state) == 0 || old(tick) >= 0 ==> Now() == Ticked(old(Now()), present)
      ensures old(state) > 0 && old(tick) == -1 ==> Now() == Enter(old(Now()), old(state))
      decreases 4 * (20 - state) + 3
    {
      if state != 0 {
        tick := tick + 1;
      }
      match state
      case 0 =>
        StopTimer();
      case 1 =>
        if tick == 20 {
          NextState(present);
        }
      case 2 =>
        if tick == 6 {
          NextState(present);
        }
      case 3 =>
        if tick == 6 {
          NextState(present);
        }
      case 4 =>
        if tick == 3 {
          var _ := Check(present);
        } else if tick == 13 {
          ErrorOut();
        }
      case 5 =>
        if tick == 1 {
          var _ := Check(present);
        }
        if tick == 7 {
          NextState(present);
        }
      case 6 =>
        if tick == 3 {
          var _ := Check(present);
        } else if tick == 13 {
          ErrorOut();
        }
      case 7 =>
        if tick == 1 {
          var ok := Check(present);
          if ok {
            NextState(present);
          }
        }
      case 8 =>
        if tick == 0 {
          Join();
        }
        if tick == 6 {
          NextState(present);
        }
      case 9 =>
        if tick == 6 {
          NextState(present);
        }
      case 10 =>
        if tick == 5 {
          NextState(present);
        }
      case 11 =>
        if tick == 1 {
          NextState(present);
        }
      case 12 =>
        if tick == 5 {
          NextState(present);
        }
      case 13 =>
        if tick == 0 {
          ResetAll();
        }
      case _ =>
        assert false;
    }

    method StartWedding(player1: string, player2: string, present: bool) returns (ok: bool)
      requires InTime()
      modifies this
      ensures ok <==> old(state) == 0
      ensures Now() == Started(old(Now()), player1, player2, present)
    {
      if state > 0 {
        return false;
      }
      partner1 := player1;
      partner2 := player2;
      started := started + 1;
      NextState(present);
      Tick(present);
      StartTimer();
      ok := true;
    }

    method IDo(name: string, here: bool, present: bool)
      requires InTime()
      modifies this
      ensures Now() == Vowed(old(Now()), name, here, present)
    {
      var required := 0;
      if name == partner1 {
        required := 4;
      } else if name == partner2 {
        required := 6;
      }
      if required == 0 || state != required {
        return;
      }
      if !here {
        return;
      }
      if required == 4 {
        vow1 := true;
      } else {
        vow2 := true;
      }
      NextState(present);
    }
  }

  // ---------- whole runs ----------

  datatype Event =
    | TimerTick(present: bool)
    | IDo(name: string, here: bool, present: bool)
    | Start(player1: string, player2: string, present: bool)

  /** The timer only ticks while it is registered. */
  function Next(c: Ceremony, e: Event): Ceremony {
    match e
    case TimerTick(present) => if c.timer then Ticked(c, present) else c
    case IDo(name, here, present) => Vowed(c, name, here, present)
    case Start(p, q, present) => Started(c, p, q, present)
  }

  predicate Begun(c: Ceremony) {
    c == Ceremony(0, 0, "", "", false, false, false, [], 0, c.ring)
  }

  /** No two marriages belong to the same ceremony. */
  ghost predicate OncePerCeremony(ms: seq<Marriage>) {
    forall i, j :: 0 <= i < j < |ms| ==> ms[i].ceremony != ms[j].ceremony
  }

  /** A marriage happens once per ceremony, and not before both vows of that ceremony. */
  ghost predicate Sound(c: Ceremony) {
    && c.state < LAST
    && (c.state > 0 ==> 0 <= c.tick < Length(c.state) && c.timer)
    && (c.vow1 <==> c.state >= 5)
    && (c.vow2 <==> c.state >= 7)
    && OncePerCeremony(c.marriages)
    && (forall m :: m in c.marriages ==> m.vow1 && m.vow2 && 1 <= m.ceremony <= c.started)
    && (0 < c.state < 8 ==> forall m :: m in c.marriages ==> m.ceremony != c.started)
    && (c.state > 0 ==> c.started >= 1)
  }

  lemma EnterSound(c: Ceremony, state: nat)
    requires Sound(c) && c.state < state == c.state + 1 <= LAST && (state == 8 ==> c.vow1 && c.vow2)
    requires c.state > 0 && c.state != 4 && c.state != 6
    ensures Sound(Enter(c, state))
  {
  }

  lemma TickSound(c: Ceremony, present: bool)
    requires Sound(c)
    ensures Sound(Ticked(c, present))
  {
    hide OncePerCeremony, Enter;
    if c.state > 0 && !AwaitsVow(c.state) && c.tick + 1 == Length(c.state) && present {
      EnterSound(c, c.state + 1);
      EnterIgnoresTick(c, c.tick + 1, c.state + 1);
    }
    NothingMarried();
  }

  lemma EnterIgnoresTick(c: Ceremony, tick: int, state: nat)
    ensures Enter(c.(tick := tick), state) == Enter(c, state)
  {
  }

  lemma NothingMarried()
    ensures OncePerCeremony([])
  {
  }

  lemma StepSound(c: Ceremony, e: Event)
    requires Sound(c)
    ensures Sound(Next(c, e))
  {
    match e
    case TimerTick(present) => TickSound(c, present);
    case IDo(_, _, _) =>
    case Start(_, _, _) =>
  }

  /** From one step to the next the state only rises, unless the ceremony is reset or newly started. */
  lemma StateRises(c: Ceremony, e: Event)
    requires Sound(c)
    ensures
      var d := Next(c, e);
      d.state >= c.state || d.state == 0
    ensures
      var d := Next(c, e);
      d.marriages != c.marriages ==>
        && d.state == 8 && c.state == 7 && c.vow1 && c.vow2
        && d.marriages == c.marriages + [Marriage(c.started, c.partner1, c.partner2, c.ring, true, true)]
    ensures
      var d := Next(c, e);
      (c.state == 4 && d.state == 5 ==> e.IDo? && e.name == c.partner1)
      && (c.state == 6 && d.state == 7 ==> e.IDo? && e.name == c.partner2 && e.name != c.partner1)
  {
  }

  function Run(c: Ceremony, es: seq<Event>): Ceremony
    decreases |es|
  {
    if es == [] then c else Run(Next(c, es[0]), es[1..])
  }

  /** In every run there are at most as many marriages as ceremonies, each after the vows of both. */
  lemma {:induction false} MarriagesSound(c: Ceremony, es: seq<Event>)
    requires Sound(c)
    ensures Sound(Run(c, es))
    decreases |es|
  {
    if es != [] {
      StepSound(c, es[0]);
      MarriagesSound(Next(c, es[0]), es[1..]);
    }
  }

  /** From the very beginning: every marriage has a ceremony of its own, in which both had said "I do". */
  lemma MarriagesFromStart(c: Ceremony, es: seq<Event>)
    requires Begun(c)
    ensures
      var d := Run(c, es);
      && OncePerCeremony(d.marriages)
      && (forall m :: m in d.marriages ==> m.vow1 && m.vow2 && 1 <= m.ceremony <= d.started)
  {
    hide Run;
    MarriagesSound(c, es);
  }

  // ---------- every ceremony ends ----------

  /** Ticks left at most: the rest of this state and all of the later ones. */
  function Left(state: nat, tick: int): int
    decreases LAST - state
  {
    if state == 0 || state >= LAST then 0
    else Length(state) - tick + Left(state + 1, 0)
  }

  const LONGEST := 89

  lemma LeftBounded(c: Ceremony)
    requires Sound(c)
    ensures 0 <= Left(c.state, c.tick) <= LONGEST
    ensures c.state > 0 ==> Left(c.state, c.tick) > 0
  {
  }

  /** Every tick of a running ceremony uses up time; a vow never adds any. */
  lemma StepShortens(c: Ceremony, e: Event)
    requires Sound(c) && !e.Start?
    ensures
      var d := Next(c, e);
      var left := Left(c.state, c.tick) - (if e.TimerTick? && c.state > 0 then 1 else 0);
      Left(d.state, d.tick) <= left
  {
    hide Left, Length, Sound;
    var d := Next(c, e);
    LeftUnfolds(c.state, c.tick);
    LeftUnfolds(d.state, d.tick);
    InTime(c);
  }

  lemma InTime(c: Ceremony)
    requires Sound(c)
    ensures c.state < LAST && (c.state > 0 ==> 0 <= c.tick < Length(c.state) && c.timer)
  {
  }

  lemma {:induction false} LeftUnfolds(state: nat, tick: int)
    ensures 0 < state < LAST ==> Left(state, tick) == Length(state) - tick + Left(state + 1, 0)
    ensures Left(state + 1, 0) >= 0
    ensures state == 0 || state >= LAST ==> Left(state, tick) == 0
    decreases LAST - state
  {
    hide Length;
    if state + 1 < LAST {
      LeftUnfolds(state + 1, 0);
    }
  }

  function Ticks(es: seq<Event>): nat {
    if es == [] then 0 else (if es[0].TimerTick? then 1 else 0) + Ticks(es[1..])
  }

  /** However the vows and departures fall, a ceremony is over when as many ticks have passed as it had left. */
  lemma {:induction false} CeremonyEnds(c: Ceremony, es: seq<Event>)
    requires Sound(c) && (forall e :: e in es ==> !e.Start?)
    requires Ticks(es) >= Left(c.state, c.tick)
    ensures Run(c, es).state == 0
    decreases |es|
  {
    LeftBounded(c);
    if es != [] {
      var d := Next(c, es[0]);
      StepSound(c, es[0]);
      StepShortens(c, es[0]);
      LeftBounded(d);
      CeremonyEnds(d, es[1..]);
    }
  }

  /** A ceremony that was just started takes at most 88 ticks. */
  lemma StartedCeremonyEnds(c: Ceremony, p: string, q: string, present: bool, es: seq<Event>)
    requires Sound(c) && c.state == 0 && (forall e :: e in es ==> !e.Start?) && Ticks(es) >= LONGEST - 1
    ensures Run(Next(c, Start(p, q, present)), es).state == 0
  {
    var d := Next(c, Start(p, q, present));
    StepSound(c, Start(p, q, present));
    LeftBounded(d);
    assert d.state == 0 || (d.state == 1 && d.tick == 1);
    assert Left(1, 1) == Left(1, 0) - 1;
    LeftBounded(d.(state := 1, tick := 0, timer := true, vow1 := false, vow2 := false,
                   marriages := [], started := 1));
    CeremonyEnds(d, es);
  }

  // ---------- the timetable, tick by tick ----------

  /** What `n` ticks do while everybody stays. */
  function After(c: Ceremony, n: nat): Ceremony {
    if n == 0 then c else Next(After(c, n - 1), TimerTick(true))
  }

  /**
   From the start to the first question: 19 more ticks of waiting, twice 6 ticks of words, and 13 ticks for an answer,
   without which the ceremony is over.
   */
  lemma {:induction false} UntilFirstVow(c: Ceremony, p: string, q: string, n: nat)
    requires c.state == 0
    ensures
      var d := After(Started(c, p, q, true), n);
      && d.state == (if n < 19 then 1 else if n < 25 then 2 else if n < 31 then 3 else if n < 44 then 4 else 0)
      && d.marriages == c.marriages
      && (n < 44 ==>
            && d.tick == (if n < 19 then n + 1 else if n < 25 then n - 19 else if n < 31 then n - 25 else n - 31)
            && d.timer && (d.partner1, d.partner2, d.started) == (p, q, c.started + 1))
  {
    if n > 0 {
      UntilFirstVow(c, p, q, n - 1);
    }
  }

  /** From the first vow to the second question and the end of its time: 7 ticks and 13 more. */
  lemma {:induction false} UntilSecondVow(c: Ceremony, n: nat)
    requires Sound(c) && c.state == 4
    ensures
      var d := After(Vowed(c, c.partner1, true, true), n);
      && d.state == (if n < 7 then 5 else if n < 20 then 6 else 0)
      && d.marriages == c.marriages
      && (n < 20 ==>
            && d.tick == (if n < 7 then n else n - 7) && d.timer
            && (d.partner1, d.partner2, d.started) == (c.partner1, c.partner2, c.started))
  {
    if n > 0 {
      UntilSecondVow(c, n - 1);
    }
  }

  /** From the second vow to the end: the rings after 1 tick, then 6, 6, 5, 1 and 5 ticks of words. */
  lemma {:induction false} UntilTheEnd(c: Ceremony, n: nat)
    requires Sound(c) && c.state == 6 && c.partner1 != c.partner2
    ensures
      var d := After(Vowed(c, c.partner2, true, true), n);
      && d.state == (if n < 1 then 7 else if n < 7 then 8 else if n < 13 then 9 else if n < 18 then 10
                     else if n < 19 then 11 else if n < 24 then 12 else 0)
      && (n < 24 ==>
            && d.tick == (if n < 1 then n else if n < 7 then n - 1 else if n < 13 then n - 7 else if n < 18 then n - 13
                          else if n < 19 then n - 18 else n - 19)
            && d.timer && d.vow1 && d.vow2 && d.ring == c.ring
            && (d.partner1, d.partner2, d.started) == (c.partner1, c.partner2, c.started))
      && d.marriages ==
           c.marriages + if n == 0 then [] else [Marriage(c.started, c.partner1, c.partner2, c.ring, true, true)]
  {
    if n > 0 {
      UntilTheEnd(c, n - 1);
    }
  }

  /**
   When somebody has left: it is noticed at the end of the present state, and before that 3 ticks into each wait for
   an answer and 1 tick after the first vow. Nobody is married then.
   */
  lemma AbsenceNoticed(c: Ceremony)
    requires Sound(c) && c.state > 0
    ensures
      var d := Ticked(c, false);
      var last := [0, 20, 6, 6, 13, 7, 13, 1, 6, 6, 5, 1, 5][c.state];
      && d.marriages == c.marriages
      && if c.tick + 1 == last || ((c.state == 4 || c.state == 6) && c.tick == 2) || (c.state == 5 && c.tick == 0)
         then d == Ceremony(0, 0, "", "", false, false, false, c.marriages, c.started, c.ring)
         else d == c.(tick := c.tick + 1)
  {
  }

  /**
   A vow counts only from a partner who is there, in turn; it leads on if everybody is, and ends the ceremony if not.
   */
  lemma VowExact(c: Ceremony, name: string, here: bool, present: bool)
    requires Sound(c)
    ensures
      var d := Vowed(c, name, here, present);
      var counts := here && (if name == c.partner1 then c.state == 4 else name == c.partner2 && c.state == 6);
      && d.marriages == c.marriages
      && (!counts ==> d == c)
      && (counts && present ==>
            d == c.(state := c.state + 1, tick := 0, vow1 := true, vow2 := c.vow2 || c.state == 6))
      && (counts && !present ==> d.state == 0 && !d.timer)
  {
  }

  /** A busy priest refuses, and nothing changes; otherwise the ceremony begins, or is over at once. */
  lemma StartExact(c: Ceremony, p: string, q: string, present: bool)
    ensures
      var d := Started(c, p, q, present);
      && (c.state > 0 ==> d == c)
      && (c.state == 0 ==> d.timer && d.started == c.started + 1 && d.marriages == c.marriages)
      && (c.state == 0 && present ==> (d.state, d.tick, d.partner1, d.partner2) == (1, 1, p, q))
      && (c.state == 0 && !present ==> (d.state, d.partner1, d.partner2) == (0, "", ""))
  {
  }
}
