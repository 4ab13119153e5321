/**
 Transactions over a connection that can be lost, as in src/database.cpp with a MySQL server: after
 reconnecting, the client replays what the open transaction had done.
 */
module Transactions {
  import opened Bytes

  // ---------- the server ----------

  const START := "START TRANSACTION"
  const COMMIT := "COMMIT"
  const ROLLBACK := "ROLLBACK"

  /** The queries whose effects are durable, and those of the open transaction, in order. */
  datatype Store = Store(durable: seq<string>, open: Option<seq<string>>)

  predicate IsSelect(q: string) {
    |q| >= 6 && q[..6] == "SELECT"
  }

  predicate IsControl(q: string) {
    q == START || q == COMMIT || q == ROLLBACK
  }

  /** What a successful query does to the store. */
  function Effect(s: Store, q: string): Store {
    if q == START then Store(s.durable + (if s.open.Some? then s.open.value else []), Some([]))
    else if q == COMMIT then Store(s.durable + (if s.open.Some? then s.open.value else []), None)
    else if q == ROLLBACK then Store(s.durable, None)
    else if IsSelect(q) then s
    else if s.open.Some? then Store(s.durable, Some(s.open.value + [q]))
    else Store(s.durable + [q], None)
  }

  /** A query is counted among what changes something unless it begins with SELECT or controls a transaction. */
  lemma EffectExact(s: Store, q: string)
    ensures "SELECT" <= q ==> Effect(s, q) == s
    ensures q == "START TRANSACTION" || q == "COMMIT" || q == "ROLLBACK" ==>
      var pending := if s.open.Some? && q != "ROLLBACK" then s.open.value else [];
      Effect(s, q) == Store(s.durable + pending, if q == "START TRANSACTION" then Some([]) else None)
    ensures !("SELECT" <= q) && !(q == "START TRANSACTION" || q == "COMMIT" || q == "ROLLBACK") ==>
      Effect(s, q) ==
        if s.open.Some? then Store(s.durable, Some(s.open.value + [q])) else Store(s.durable + [q], None)
  {
    assert "SELECT" <= q <==> |q| >= 6 && q[..6] == "SELECT";
    assert START[..6] == "START " && ROLLBACK[..6] == "ROLLBA" && COMMIT[..6] == "COMMIT";
  }

  /** How the server answers: it did it, the connection is lost, or it reports another error. */
  datatype Answer = Ok | Lost | Error

  /** A server with the answers it is going to give. A lost connection discards its open transaction. */
  class Server {
    var store: Store
    var answers: seq<Answer>

    constructor (answers: seq<Answer>)
      ensures store == Store([], None) && this.answers == answers
    {
      store := Store([], None);
      this.answers := answers;
    }

    method Query(q: string) returns (a: Answer)
      requires answers != []
      modifies this
      ensures a == old(answers)[0] && answers == old(answers)[1..]
      ensures a.Ok? ==> store == Effect(old(store), q)
      ensures a.Lost? ==> store == old(store).(open := None)
      ensures a.Error? ==> store == old(store)
    {
      a := answers[0];
      answers := answers[1..];
      match a
      case Ok => store := Effect(store, q);
      case Lost => store := store.(open := None);
      case Error =>
    }

    method Connect() returns (ok: bool)
      requires answers != []
      modifies this`answers
      ensures ok == old(answers)[0].Ok? && answers == old(answers)[1..]
    {
      ok := answers[0].Ok?;
      answers := answers[1..];
    }

    method Disconnect()
      modifies this`store
      ensures store == old(store).(open := None)
    {
      store := store.(open := None);
    }
  }

  // ---------- the client ----------

  /** `Halted` is process termination; `Waiting` means the server has not answered yet. */
  datatype Outcome = Done | Failed | Halted | Waiting

  /** How many answers, up to `n`, are successes from the first on. */
  function Successes(answers: seq<Answer>, n: nat): (k: nat)
    ensures k <= n && k <= |answers|
    ensures forall i :: 0 <= i < k ==> answers[i].Ok?
    ensures k < n && k < |answers| ==> !answers[k].Ok?
  {
    if n == 0 || answers == [] || !answers[0].Ok? then 0 else 1 + Successes(answers[1..], n - 1)
  }

  /**
   How reconnecting comes out, with `attempts` left and `replay` queries to be repeated, and the answers left: an
   attempt fails when the connection is refused or lost again, and the process ends when the last one has failed or a
   repeated query has.
   */
  function Recovery(answers: seq<Answer>, replay: nat, attempts: nat): (Outcome, seq<Answer>)
    decreases attempts
  {
    if attempts == 0 then (Halted, answers)
    else if answers == [] then (Waiting, [])
    else if !answers[0].Ok? then Recovery(answers[1..], replay, attempts - 1)
    else
      var k := Successes(answers[1..], replay);
      if k == replay then (Done, answers[1 + k..])
      else if 1 + k == |answers| then (Waiting, [])
      else if answers[1 + k].Error? then (Halted, answers[2 + k..])
      else Recovery(answers[2 + k..], replay, attempts - 1)
  }

  /** How a query comes out: it is tried again after every recovery. */
  function Queried(answers: seq<Answer>, replay: nat): (Outcome, seq<Answer>)
    decreases |answers|
  {
    if answers == [] then (Waiting, [])
    else
      match answers[0]
      case Ok => (Done, answers[1..])
      case Error => (Failed, answers[1..])
      case Lost =>
        var (o, rest) := Recovery(answers[1..], replay, 10);
        if o.Done? then RecoveryShortens(answers[1..], replay, 10); Queried(rest, replay) else (o, rest)
  }

  lemma {:induction false} RecoveryShortens(answers: seq<Answer>, replay: nat, attempts: nat)
    ensures |Recovery(answers, replay, attempts).1| <= |answers|
    decreases attempts
  {
    if attempts > 0 && answers != [] {
      var k := Successes(answers[1..], replay);
      if !answers[0].Ok? {
        RecoveryShortens(answers[1..], replay, attempts - 1);
      } else if k < replay && 1 + k < |answers| && !answers[1 + k].Error? {
        RecoveryShortens(answers[2 + k..], replay, attempts - 1);
      }
    }
  }

  /** What the next answers decide, one attempt at a time. */
  lemma RecoveryStep(answers: seq<Answer>, replay: nat, attempts: nat)
    ensures attempts == 0 ==> Recovery(answers, replay, attempts) == (Halted, answers)
    ensures attempts > 0 && answers == [] ==> Recovery(answers, replay, attempts) == (Waiting, [])
    ensures attempts > 0 && answers != [] ==>
      if !answers[0].Ok? then Recovery(answers, replay, attempts) == Recovery(answers[1..], replay, attempts - 1)
      else
        var after, k := answers[1..], Successes(answers[1..], replay);
        Recovery(answers, replay, attempts) ==
          if k == replay then (Done, after[k..])
          else if k == |after| then (Waiting, [])
          else if after[k].Error? then (Halted, after[k + 1..])
          else Recovery(after[k + 1..], replay, attempts - 1)
  {
    if attempts > 0 && answers != [] && answers[0].Ok? {
      var after, k := answers[1..], Successes(answers[1..], replay);
      assert after[k..] == answers[1 + k..];
      if k < |after| {
        assert after[k + 1..] == answers[2 + k..];
      }
    }
  }

  /** A lost connection that is there again after fewer than ten failed attempts. */
  ghost predicate Outage(o: seq<Answer>, rounds: seq<seq<Answer>>, replay: nat) {
    && |rounds| < 10 && AllFailed(rounds, replay)
    && |o| == 1 + |Concat(rounds)| + 1 + replay
    && o[0].Lost? && o[1..1 + |Concat(rounds)|] == Concat(rounds)
    && forall i :: 1 + |Concat(rounds)| <= i < |o| ==> o[i].Ok?
  }

  lemma OutageOver(o: seq<Answer>, rounds: seq<seq<Answer>>, rest: seq<Answer>, replay: nat)
    requires Outage(o, rounds, replay)
    ensures Queried(o + rest, replay) == Queried(rest, replay)
  {
    var lost := Concat(rounds);
    var good := o[1 + |lost|..];
    assert (o + rest)[1..] == lost + (good + rest);
    hide Recovery, AllFailed;
    RecoverySucceeds(rounds, good, rest, replay);
  }

  /** After any number of such outages, a query that is answered at last is done. */
  lemma {:induction false} QueriedAfterOutages(os: seq<seq<Answer>>, rs: seq<seq<seq<Answer>>>, rest: seq<Answer>,
                                               replay: nat)
    requires |os| == |rs| && (forall i :: 0 <= i < |os| ==> Outage(os[i], rs[i], replay))
    ensures Queried(Concat(os) + ([Ok] + rest), replay) == (Done, rest)
    decreases |os|
  {
    hide Outage, Recovery;
    if os == [] {
      ConcatEmpty([Ok] + rest);
      assert ([Ok] + rest)[1..] == rest;
    } else {
      hide Queried;
      ConcatAssociative(os[0], Concat(os[1..]), [Ok] + rest);
      OutageOver(os[0], rs[0], Concat(os[1..]) + ([Ok] + rest), replay);
      QueriedAfterOutages(os[1..], rs[1..], rest, replay);
    }
  }

  /** How beginning a transaction comes out: a refusal is tried again, ten times in all. */
  function Begun(answers: seq<Answer>, attempts: nat): (Outcome, seq<Answer>)
    decreases attempts
  {
    var (o, rest) := Queried(answers, 0);
    if o.Failed? then if attempts <= 1 then (Halted, rest) else Begun(rest, attempts - 1) else (o, rest)
  }

  /** However often the connection is lost, query number `i` and all later ones and the commit are done in the end. */
  ghost predicate AllAnswered(answers: seq<Answer>, queries: seq<string>, i: nat)
    requires i <= |queries|
    decreases |queries| - i
  {
    var (o, rest) := Queried(answers, 1 + |Changes(queries[..i])|);
    o.Done? && (i < |queries| ==> AllAnswered(rest, queries, i + 1))
  }

  ghost predicate WentWell(answers: seq<Answer>, queries: seq<string>) {
    var (o, rest) := Begun(answers, 10);
    o.Done? && AllAnswered(rest, queries, 0)
  }

  /** A transaction that is refused fewer than ten times is begun; after ten refusals the process ends. */
  lemma {:induction false} BegunAfterRefusals(refused: seq<Answer>, rest: seq<Answer>, attempts: nat)
    requires |refused| <= attempts && attempts > 0 && (forall i :: 0 <= i < |refused| ==> refused[i].Error?)
    ensures |refused| < attempts ==> Begun(refused + ([Ok] + rest), attempts) == (Done, rest)
    ensures |refused| == attempts ==> Begun(refused + rest, attempts) == (Halted, rest)
    decreases |refused|
  {
    if refused == [] {
      ConcatEmpty([Ok] + rest);
      assert ([Ok] + rest)[1..] == rest;
    } else {
      var next := refused[1..];
      assert (refused + rest)[1..] == next + rest;
      assert (refused + ([Ok] + rest))[1..] == next + ([Ok] + rest);
      if attempts > 1 {
        BegunAfterRefusals(next, rest, attempts - 1);
      } else {
        ConcatEmpty(rest);
      }
    }
  }

  lemma {:induction false} AnsweredIff(answers: seq<Answer>, queries: seq<string>, i: nat)
    requires i <= |queries| && (forall k :: 0 <= k < |answers| ==> answers[k].Ok?)
    ensures AllAnswered(answers, queries, i) <==> |answers| > |queries| - i
    decreases |queries| - i
  {
    if answers != [] && i < |queries| {
      AnsweredIff(answers[1..], queries, i + 1);
    }
  }

  /** Where nothing goes wrong, one answer is needed for the beginning, one for each query, and one for the commit. */
  lemma WentWellIff(answers: seq<Answer>, queries: seq<string>)
    requires forall k :: 0 <= k < |answers| ==> answers[k].Ok?
    ensures WentWell(answers, queries) <==> |answers| >= |queries| + 2
  {
    if answers != [] {
      BegunAfterRefusals([], answers[1..], 10);
      assert [] + ([Ok] + answers[1..]) == answers;
      AnsweredIff(answers[1..], queries, 0);
    }
  }

  /** One attempt that fails: no connection, or a connection that is lost before everything has been repeated. */
  ghost predicate FailedAttempt(round: seq<Answer>, replay: nat) {
    && round != []
    && (!round[0].Ok? ==> |round| == 1)
    && (round[0].Ok? ==>
          && 2 <= |round| <= replay + 1
          && (forall i :: 0 <= i < |round| - 1 ==> round[i].Ok?) && round[|round| - 1].Lost?)
  }

  ghost predicate AllFailed(rounds: seq<seq<Answer>>, replay: nat) {
    forall round :: round in rounds ==> FailedAttempt(round, replay)
  }

  lemma SuccessesAre(answers: seq<Answer>, n: nat, k: nat)
    requires k <= n && k <= |answers| && (forall i :: 0 <= i < k ==> answers[i].Ok?)
    requires k < n ==> k < |answers| && !answers[k].Ok?
    ensures Successes(answers, n) == k
  {
  }

  lemma OneAttempt(round: seq<Answer>, rest: seq<Answer>, replay: nat, attempts: nat)
    requires attempts > 0 && FailedAttempt(round, replay)
    ensures Recovery(round + rest, replay, attempts) == Recovery(rest, replay, attempts - 1)
  {
    var answers := round + rest;
    if round[0].Ok? {
      var k := |round| - 2;
      SuccessesAre(answers[1..], replay, k);
      assert answers[2 + k..] == rest;
    } else {
      assert answers[1..] == rest;
    }
  }

  lemma {:induction false} Attempts(rounds: seq<seq<Answer>>, rest: seq<Answer>, replay: nat, attempts: nat)
    requires |rounds| <= attempts && AllFailed(rounds, replay)
    ensures Recovery(Concat(rounds) + rest, replay, attempts) == Recovery(rest, replay, attempts - |rounds|)
    decreases |rounds|
  {
    hide Recovery, FailedAttempt;
    if rounds == [] {
      ConcatEmpty(rest);
    } else {
      assert rounds[0] in rounds;
      ConcatAssociative(rounds[0], Concat(rounds[1..]), rest);
      OneAttempt(rounds[0], Concat(rounds[1..]) + rest, replay, attempts);
      Attempts(rounds[1..], rest, replay, attempts - 1);
    }
  }

  /**
   After fewer than ten failed attempts, a connection that lasts for the whole replay ends the recovery well.
   */
  lemma RecoverySucceeds(rounds: seq<seq<Answer>>, good: seq<Answer>, rest: seq<Answer>, replay: nat)
    requires |rounds| < 10 && AllFailed(rounds, replay)
    requires |good| == 1 + replay && (forall i :: 0 <= i < |good| ==> good[i].Ok?)
    ensures Recovery(Concat(rounds) + (good + rest), replay, 10) == (Done, rest)
  {
    hide Recovery;
    Attempts(rounds, good + rest, replay, 10);
    GoodAttempt(good, rest, replay, 10 - |rounds|);
  }

  lemma GoodAttempt(good: seq<Answer>, rest: seq<Answer>, replay: nat, attempts: nat)
    requires attempts > 0 && |good| == 1 + replay && (forall i :: 0 <= i < |good| ==> good[i].Ok?)
    ensures Recovery(good + rest, replay, attempts) == (Done, rest)
  {
    var answers := good + rest;
    SuccessesAre(answers[1..], replay, replay);
    assert answers[1 + replay..] == rest;
  }

  /** After ten failed ones the process ends, whatever the server would answer then. */
  lemma RecoveryGivesUp(rounds: seq<seq<Answer>>, rest: seq<Answer>, replay: nat)
    requires |rounds| == 10 && AllFailed(rounds, replay)
    ensures Recovery(Concat(rounds) + rest, replay, 10) == (Halted, rest)
  {
    hide FailedAttempt;
    Attempts(rounds, rest, replay, 10);
  }

  /** And so it does when a repeated query is refused. */
  lemma RecoveryRefused(rounds: seq<seq<Answer>>, bad: seq<Answer>, rest: seq<Answer>, replay: nat)
    requires |rounds| < 10 && AllFailed(rounds, replay)
    requires 2 <= |bad| <= replay + 1 && bad[|bad| - 1].Error? && (forall i :: 0 <= i < |bad| - 1 ==> bad[i].Ok?)
    ensures Recovery(Concat(rounds) + (bad + rest), replay, 10) == (Halted, rest)
  {
    Attempts(rounds, bad + rest, replay, 10);
    var answers := bad + rest;
    SuccessesAre(answers[1..], replay, |bad| - 2);
    assert answers[2 + (|bad| - 2)..] == rest;
  }

  class Database {
    const server: Server
    var connected: bool
    var inTransaction: bool
    var log: seq<string>

    constructor (server: Server)
      requires server.store.open.None?
      ensures Synchronised() && this.server == server && !inTransaction
    {
      this.server := server;
      connected, inTransaction, log := true, false, [];
    }

    /** The server's open transaction holds exactly the logged queries, in order and once each. */
    ghost predicate Synchronised()
      reads this, server
    {
      && connected
      && server.store.open == (if inTransaction then Some(log) else None)
      && Logged()
    }

    /** Only queries that change something, and no transaction control, are ever logged. */
    ghost predicate Logged()
      reads this
    {
      (!inTransaction ==> log == []) && forall q :: q in log ==> !IsControl(q) && !IsSelect(q)
    }

    /** How many queries a replay takes. */
    function ToReplay(): nat
      reads this
    {
      if inTransaction then 1 + |log| else 0
    }

    /** Reconnecting: the labels `server_gone` and the replay loop of `RawQuery`. */
    method Recover() returns (r: Outcome)
      requires Logged()
      modifies this`connected, server
      ensures server.store.durable == old(server.store.durable)
      ensures |server.answers| <= |old(server.answers)|
      ensures r.Done? || r.Halted? || r.Waiting?
      ensures r.Done? ==> Synchronised() && |server.answers| < |old(server.answers)|
      ensures (r, server.answers) == Recovery(old(server.answers), ToReplay(), 10)
    {
      hide Successes, Recovery;
      var attempt := 0;
      while true
        invariant server.store.durable == old(server.store.durable)
        invariant |server.answers| <= |old(server.answers)|
        invariant attempt <= 10
        invariant Recovery(server.answers, ToReplay(), 10 - attempt) == Recovery(old(server.answers), ToReplay(), 10)
        decreases 10 - attempt
      {
        RecoveryStep(server.answers, ToReplay(), 10 - attempt);
        attempt := attempt + 1;
        if attempt > 10 {
          return Halted;
        }
        connected := false;
        server.Disconnect();
        if server.answers == [] {
          return Waiting;
        }
        connected := server.Connect();
        if !connected {
          continue;
        }
        if !inTransaction {
          return Done;
        }
        var a := Replay();
        match a
        case Some(Ok) => return Done;
        case Some(Error) => return Halted;
        case Some(Lost) =>
        case None => return Waiting;
      }
    }

    /** Restarts the transaction and repeats its log; stops at the first answer that is not a success. */
    method Replay() returns (a: Option<Answer>)
      requires inTransaction && connected && server.store.open == None && Logged()
      modifies server
      ensures server.store.durable == old(server.store.durable)
      ensures |server.answers| <= |old(server.answers)|
      ensures a == Some(Ok) ==> Synchronised()
      ensures
        var k := Successes(old(server.answers), 1 + |log|);
        if k == 1 + |log| then a == Some(Ok) && server.answers == old(server.answers)[k..]
        else if k == |old(server.answers)| then a == None && server.answers == []
        else a == Some(old(server.answers)[k]) && !a.value.Ok? && server.answers == old(server.answers)[k + 1..]
    {
      ghost var answers := server.answers;
      if server.answers == [] {
        return None;
      }
      var answer := server.Query(START);
      if !answer.Ok? {
        return Some(answer);
      }
      assert server.store.durable == old(server.store.durable);
      for i := 0 to |log|
        invariant server.store == Store(old(server.store.durable), Some(log[..i]))
        invariant 1 + i <= |answers| && server.answers == answers[1 + i..]
        invariant forall j :: 0 <= j < 1 + i ==> answers[j].Ok?
      {
        if server.answers == [] {
          return None;
        }
        assert log[i] in log;
        answer := server.Query(log[i]);
        if !answer.Ok? {
          SuccessesAre(answers, 1 + |log|, 1 + i);
          return Some(answer);
        }
        assert log[..i] + [log[i]] == log[..i + 1];
      }
      assert log[..|log|] == log;
      a := Some(Ok);
    }

    /** Runs one query, however often the connection is lost on the way. */
    method RawQuery(q: string, txControl: bool := false) returns (r: Outcome)
      requires Synchronised() && (txControl <==> IsControl(q))
      modifies this`connected, this`log, server
      ensures |server.answers| <= |old(server.answers)|
      ensures r.Done? ==>
        && server.store == Effect(old(server.store), q)
        && log == old(log) + (if inTransaction && !txControl && !IsSelect(q) then [q] else [])
        && connected && (!txControl ==> Synchronised())
      ensures r.Failed? ==> Synchronised() && log == old(log)
      ensures !r.Done? ==> server.store.durable == old(server.store.durable)
      ensures (r, server.answers) == Queried(old(server.answers), old(ToReplay()))
    {
      hide Recovery;
      ghost var before := server.store;
      while true
        invariant Synchronised() && log == old(log) && server.store == before
        invariant |server.answers| <= |old(server.answers)|
        invariant Queried(server.answers, ToReplay()) == Queried(old(server.answers), old(ToReplay()))
        decreases |server.answers|
      {
        if server.answers == [] {
          return Waiting;
        }
        var a := server.Query(q);
        match a
        case Ok => break;
        case Error => return Failed;
        case Lost =>
          r := Recover();
          if !r.Done? {
            return r;
          }
      }
      if inTransaction && !txControl {
        if !IsSelect(q) {
          log := log + [q];
        }
      }
      r := Done;
    }

    /** `begun` is false when a transaction is already open. */
    method BeginTransaction() returns (r: Outcome, begun: bool)
      requires Synchronised()
      modifies this`connected, this`inTransaction, this`log, server
      ensures server.store.durable == old(server.store.durable)
      ensures r.Done? || r.Halted? || r.Waiting?
      ensures r.Done? ==> Synchronised() && inTransaction && begun == !old(inTransaction)
      ensures old(inTransaction) ==> r.Done?
      ensures r.Done? && begun ==> log == []
      ensures r.Done? && !begun ==> log == old(log)
      ensures !old(inTransaction) ==> (r, server.answers) == Begun(old(server.answers), 10)
      ensures old(inTransaction) ==> server.answers == old(server.answers)
    {
      hide Queried;
      if inTransaction {
        return Done, false;
      }
      var attempt := 1;
      while true
        invariant 1 <= attempt <= 10 && Synchronised() && !inTransaction
        invariant server.store.durable == old(server.store.durable)
        invariant Begun(server.answers, 11 - attempt) == Begun(old(server.answers), 10)
        decreases 10 - attempt
      {
        r := RawQuery(START, true);
        match r
        case Done => break;
        case Failed =>
          if attempt >= 10 {
            return Halted, false;
          }
          attempt := attempt + 1;
        case _ => return r, false;
      }
      inTransaction := true;
      begun := true;
    }

    /** The open transaction becomes durable as a whole, or nothing of it does. */
    method Commit() returns (r: Outcome)
      requires Synchronised() && inTransaction
      modifies this`connected, this`inTransaction, this`log, server
      ensures r.Done? ==>
        Synchronised() && !inTransaction && server.store.durable == old(server.store.durable) + old(log)
      ensures r.Failed? ==> Synchronised() && inTransaction && log == old(log)
      ensures !r.Done? ==> server.store.durable == old(server.store.durable)
      ensures (r, server.answers) == Queried(old(server.answers), 1 + |old(log)|)
    {
      r := RawQuery(COMMIT, true);
      if r.Done? {
        inTransaction := false;
        log := [];
      }
    }

    method Rollback() returns (r: Outcome)
      requires Synchronised() && inTransaction
      modifies this`connected, this`inTransaction, this`log, server
      ensures server.store.durable == old(server.store.durable)
      ensures r.Done? ==> Synchronised() && !inTransaction
      ensures (r, server.answers) == Queried(old(server.answers), 1 + |old(log)|)
    {
      r := RawQuery(ROLLBACK, true);
      if r.Done? {
        inTransaction := false;
        log := [];
      }
    }

    /**
     Bulk execution: all of the queries become durable, in order and once each, or none does, whatever the
     server answers and however often the connection is lost.
     */
    method ExecuteQueries(queries: seq<string>) returns (r: Outcome)
      requires Synchronised() && forall q :: q in queries ==> !IsControl(q)
      modifies this`connected, this`inTransaction, this`log, server
      ensures server.store.durable == old(server.store.durable) + (if r.Done? then Changes(queries) else [])
      ensures old(inTransaction) ==> r.Failed? && Synchronised() && log == old(log)
      ensures r.Done? || r.Failed? ==> Synchronised() && inTransaction == old(inTransaction)
      ensures !old(inTransaction) ==> (r.Done? <==> WentWell(old(server.answers), queries))
    {
      hide Queried;
      ghost var answers := server.answers;
      var begun;
      r, begun := BeginTransaction();
      if !r.Done? {
        return;
      }
      if !begun {
        return Failed;
      }
      for i := 0 to |queries|
        invariant Synchronised() && inTransaction && log == Changes(queries[..i])
        invariant server.store.durable == old(server.store.durable)
        invariant WentWell(answers, queries) <==> AllAnswered(server.answers, queries, i)
      {
        ChangesNext(queries, i);
        r := RawQuery(queries[i]);
        if r.Failed? {
          r := Unwind();
          return;
        }
        if !r.Done? {
          return;
        }
      }
      assert queries[..|queries|] == queries;
      r := Commit();
      if r.Failed? {
        r := Unwind();
      }
    }

    /** The destructor of the bulk context: a rollback that fails ends the process. */
    method Unwind() returns (r: Outcome)
      requires Synchronised() && inTransaction
      modifies this`connected, this`inTransaction, this`log, server
      ensures server.store.durable == old(server.store.durable)
      ensures !r.Done?
      ensures r.Failed? ==> Synchronised() && !inTransaction
    {
      r := Rollback();
      r := if r.Done? then Failed else if r.Failed? then Halted else r;
    }
  }

  /** The queries of a list that change something. */
  function Changes(queries: seq<string>): seq<string> {
    if queries == [] then []
    else Changes(queries[..|queries| - 1]) + (if IsSelect(queries[|queries| - 1]) then [] else [queries[|queries| - 1]])
  }

  lemma ChangesNext(queries: seq<string>, i: nat)
    requires i < |queries|
    ensures Changes(queries[..i + 1]) == Changes(queries[..i]) + (if IsSelect(queries[i]) then [] else [queries[i]])
  {
    assert queries[..i + 1][..i] == queries[..i];
  }

  /** In order, everything that does not begin with SELECT. */
  lemma ChangesExact(queries: seq<string>, q: string)
    ensures Changes([]) == [] && Changes(queries + [q]) == Changes(queries) + (if "SELECT" <= q then [] else [q])
  {
    assert "SELECT" <= q <==> IsSelect(q);
    assert (queries + [q])[..|queries|] == queries;
  }
}
