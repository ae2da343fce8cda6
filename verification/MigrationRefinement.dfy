/** migrations.go:145-244: a call of the engine, between other migrators' steps, is a stretch of a protocol run. */
module MigrationRefinement {
  import opened Basics
  import opened Names
  import opened MigrationProtocol
  import opened MigrationEngine

  /** Where the steps lead, if each of them can be taken. */
  function Outcome(known: seq<Name>, s: State, steps: seq<Step>): Option<State> {
    if steps == [] then Some(s)
    else
      var before, step := Outcome(known, s, steps[..|steps| - 1]), steps[|steps| - 1];
      if before.Some? && Enabled(before.value, step) then Some(Next(known, before.value, step)) else None
  }

  lemma OneStep(known: seq<Name>, s: State, steps: seq<Step>, mid: State, step: Step)
    requires Outcome(known, s, steps) == Some(mid) && Enabled(mid, step)
    ensures Outcome(known, s, steps + [step]) == Some(Next(known, mid, step))
  {
    assert (steps + [step])[..|steps|] == steps;
  }

  lemma {:induction false} OutcomeJoins(known: seq<Name>, s: State, a: seq<Step>, b: seq<Step>)
    requires Outcome(known, s, a).Some?
    ensures Outcome(known, s, a + b) == Outcome(known, Outcome(known, s, a).value, b)
  {
    if b == [] {
      assert a + b == a;
    } else {
      var n := |b| - 1;
      OutcomeJoins(known, s, a, b[..n]);
      assert (a + b)[..|a + b| - 1] == a + b[..n];
    }
  }

  /** Other migrators step, and leave the lock free; `others` is what they commit. */
  ghost predicate OthersStep(known: seq<Name>, s: State, s': State, m: nat, others: set<Name>, steps: seq<Step>) {
    && (forall step :: step in steps ==> step.m != m)
    && Outcome(known, s, steps) == Some(s') && s'.lock.None? && s'.ledger == s.ledger + others
  }

  lemma {:induction false} OthersLeaveMine(known: seq<Name>, s: State, m: nat, steps: seq<Step>)
    requires forall step :: step in steps ==> step.m != m
    requires m in s.migrators && Outcome(known, s, steps).Some?
    ensures m in Outcome(known, s, steps).value.migrators
    ensures Outcome(known, s, steps).value.migrators[m] == s.migrators[m]
  {
    if steps != [] {
      OthersLeaveMine(known, s, m, steps[..|steps| - 1]);
    }
  }

  predicate CanTry(s: State, m: nat) {
    Active(s, m, Between) && s.lock.None? && s.migrators[m].next < |s.migrators[m].pending|
  }

  /** The version a transaction is for. */
  function Tried(s: State, m: nat): Name
    requires CanTry(s, m)
  {
    s.migrators[m].pending[s.migrators[m].next]
  }

  /** What one transaction of the engine leaves, by the contract of `ApplyOne`. */
  function Tx(s: State, m: nat, reply: Reply): State
    requires CanTry(s, m)
  {
    var r, v := s.migrators[m], Tried(s, m);
    var seen := v in s.ledger;
    var through := !reply.Failed? && (seen || reply.Acked?);
    State(if reply.Failed? then s.ledger else s.ledger + {v}, None,
          s.migrators[m := if !through then r.(phase := Aborted)
                           else Migrator(Between, r.pending, r.next + 1, if seen then r.applied else r.applied + [v])],
          if reply.Failed? || seen then s.commits else s.commits + [Commit(v, m, reply.Acked?)])
  }

  /** A transaction is taking the lock, then the re-check, then the commit or the roll-back. */
  lemma TxIsSteps(known: seq<Name>, s: State, m: nat, reply: Reply) returns (steps: seq<Step>)
    requires CanTry(s, m)
    ensures Outcome(known, s, steps) == Some(Tx(s, m, reply))
  {
    var locked := Next(known, s, Lock(m));
    OneStep(known, s, [], s, Lock(m));
    assert [] + [Lock(m)] == [Lock(m)];
    if reply.Failed? {
      OneStep(known, s, [Lock(m)], locked, Fail(m));
      steps := [Lock(m)] + [Fail(m)];
      SameState(Next(known, locked, Fail(m)), Tx(s, m, reply), s, m);
    } else if Tried(s, m) in s.ledger {
      OneStep(known, s, [Lock(m)], locked, Skip(m));
      steps := [Lock(m)] + [Skip(m)];
      assert s.ledger + {Tried(s, m)} == s.ledger;
      SameState(Next(known, locked, Skip(m)), Tx(s, m, reply), s, m);
    } else {
      OneStep(known, s, [Lock(m)], locked, Check(m));
      var checked := Next(known, locked, Check(m));
      OneStep(known, s, [Lock(m)] + [Check(m)], checked, CommitTx(m, reply.Acked?));
      steps := [Lock(m)] + [Check(m)] + [CommitTx(m, reply.Acked?)];
      SameState(Next(known, checked, CommitTx(m, reply.Acked?)), Tx(s, m, reply), s, m);
    }
  }

  /** Two states that differ from a third at most in one migrator, and agree on it. */
  lemma SameState(a: State, b: State, s: State, m: nat)
    requires a.ledger == b.ledger && a.lock == b.lock && a.commits == b.commits
    requires m in a.migrators && m in b.migrators && a.migrators[m] == b.migrators[m]
    requires a.migrators.Keys == b.migrators.Keys == s.migrators.Keys
    requires forall other :: other in s.migrators && other != m ==>
                               a.migrators[other] == s.migrators[other] && b.migrators[other] == s.migrators[other]
    ensures a == b
  {
    assert a.migrators == b.migrators;
  }

  predicate GoesThrough(s: State, m: nat, reply: Reply)
    requires CanTry(s, m)
  {
    !reply.Failed? && (Tried(s, m) in s.ledger || reply.Acked?)
  }

  function StateAt(first: State, after: seq<State>, k: nat): State
    requires k <= |after|
  {
    if k == 0 then first else after[k - 1]
  }

  lemma StateIs(first: State, after: seq<State>, k: nat)
    requires 0 < k <= |after|
    ensures StateAt(first, after, k) == after[k - 1]
  {}

  /**
   * The states a call passes through: `before[j]` when others have stepped and its j-th transaction is due, `after[j]`
   * when that transaction went through.
   */
  ghost predicate IsCall(known: seq<Name>, first: State, m: nat, before: seq<State>, after: seq<State>,
                         others: seq<set<Name>>, env: seq<seq<Step>>, replies: seq<Reply>) {
    && |before| == |after| == |others| == |env| == |replies|
    && forall j :: 0 <= j < |before| ==>
         && OthersStep(known, StateAt(first, after, j), before[j], m, others[j], env[j])
         && CanTry(before[j], m) && GoesThrough(before[j], m, replies[j]) && after[j] == Tx(before[j], m, replies[j])
  }

  /**
   * Every call between other migrators' steps: after its first k transactions the protocol's state has the ledger, and
   * the migrator the list of applied versions, that the engine's loop computes; and its steps lead there.
   */
  lemma {:induction false} CallIsARun(known: seq<Name>, start: State, m: nat, before: seq<State>, after: seq<State>,
                                      others: seq<set<Name>>, env: seq<seq<Step>>, replies: seq<Reply>, k: nat)
    returns (steps: seq<Step>)
    requires Ascending(known) && Enabled(start, Begin(m))
    requires IsCall(known, Next(known, start, Begin(m)), m, before, after, others, env, replies)
    requires k <= |before| && k <= |PendingOf(known, start.ledger)|
    ensures
      var pending, s := PendingOf(known, start.ledger), StateAt(Next(known, start, Begin(m)), after, k);
      && Outcome(known, start, steps) == Some(s)
      && IsAt(s, m, pending, k, others, start.ledger)
  {
    hide Outcome, MigrationProtocol.Next, Missing, LedgerAt, UnionOf, Tx, PendingOf, Enabled, StateAt, Ascending;
    var first, pending := Next(known, start, Begin(m)), PendingOf(known, start.ledger);
    if k == 0 {
      steps := CallBegins(known, start, m, after, others);
    } else {
      var n := k - 1;
      var rest := CallIsARun(known, start, m, before, after, others, env, replies, n);
      StateIs(first, after, k);
      assert OthersStep(known, StateAt(first, after, n), before[n], m, others[n], env[n]);
      steps := CallStep(known, start, rest, StateAt(first, after, n), before[n], m, others[n], env[n], replies[n]);
      EngineStep(known, start.ledger, pending, others, n, before[n], m, replies[n]);
    }
  }

  lemma CallBegins(known: seq<Name>, start: State, m: nat, after: seq<State>, others: seq<set<Name>>)
    returns (steps: seq<Step>)
    requires Enabled(start, Begin(m))
    ensures
      var first := Next(known, start, Begin(m));
      && Outcome(known, start, steps) == Some(StateAt(first, after, 0))
      && IsAt(StateAt(first, after, 0), m, PendingOf(known, start.ledger), 0, others, start.ledger)
  {
    OneStep(known, start, [], start, Begin(m));
    steps := [] + [Begin(m)];
    NothingYet(start.ledger, PendingOf(known, start.ledger), others);
  }

  /** Others step, and then the next transaction of the call. */
  lemma CallStep(known: seq<Name>, start: State, rest: seq<Step>, s: State, due: State, m: nat, others: set<Name>,
                 env: seq<Step>, reply: Reply) returns (steps: seq<Step>)
    requires Outcome(known, start, rest) == Some(s) && m in s.migrators
    requires OthersStep(known, s, due, m, others, env) && CanTry(due, m)
    ensures Outcome(known, start, steps) == Some(Tx(due, m, reply)) && due.migrators[m] == s.migrators[m]
  {
    hide Outcome, MigrationProtocol.Next, Tx, Enabled;
    OutcomeJoins(known, start, rest, env);
    OthersLeaveMine(known, s, m, env);
    var tx := TxIsSteps(known, due, m, reply);
    OutcomeJoins(known, start, rest + env, tx);
    steps := rest + env + tx;
  }

  /** The migrator is where the engine's loop is after k transactions, and so is the ledger. */
  ghost predicate IsAt(s: State, m: nat, pending: seq<Name>, k: nat, others: seq<set<Name>>, ledger: set<Name>)
    requires k <= |pending| && k <= |others|
  {
    && m in s.migrators && s.migrators[m] == Migrator(Between, pending, k, Missing(pending, others, k))
    && s.ledger == LedgerAt(ledger, pending, others, k)
  }

  /** One transaction moves the state as it moves the engine. */
  lemma EngineStep(known: seq<Name>, ledger: set<Name>, pending: seq<Name>, others: seq<set<Name>>, n: nat, s: State,
                   m: nat, reply: Reply)
    requires Ascending(known) && pending == PendingOf(known, ledger) && n < |pending| && n < |others|
    requires CanTry(s, m) && GoesThrough(s, m, reply)
    requires s.migrators[m] == Migrator(Between, pending, n, Missing(pending, others, n))
    requires s.ledger == LedgerAt(ledger, pending, others, n) + others[n]
    ensures IsAt(Tx(s, m, reply), m, pending, n + 1, others, ledger)
  {
    hide PendingOf, UnionOf, LedgerAt, Ascending, Less;
    PendingAre(known, ledger);
    assert pending[n] in pending;
    LedgerNext(ledger, pending, others, n);
  }
}
