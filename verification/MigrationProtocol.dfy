/** migrations.go:145-244: any number of migrators of the same versions, interleaved, under one advisory lock. */
module MigrationProtocol {
  import opened Basics
  import opened Names

  /** A migrator that holds the lock has either just taken it or found its version missing from the ledger. */
  datatype Phase = Between | Locked | Checked | Completed | Aborted

  /** One call of the engine: what it found pending, how far it got, what it reports as applied. */
  datatype Migrator = Migrator(phase: Phase, pending: seq<Name>, next: nat, applied: seq<Name>)

  /** A committed transaction; `acked` is whether its migrator learned of it. */
  datatype Commit = Commit(version: Name, who: nat, acked: bool)

  datatype State = State(ledger: set<Name>, lock: Option<nat>, migrators: map<nat, Migrator>, commits: seq<Commit>)

  datatype Step =
    | Begin(m: nat)                   // read the ledger, outside any lock
    | Lock(m: nat)                    // open a transaction and take the lock
    | Skip(m: nat)                    // the version is in the ledger by now
    | Check(m: nat)                   // it is not; the file runs
    | CommitTx(m: nat, acked: bool)   // DDL and ledger row become visible together
    | Fail(m: nat)                    // any error or crash: rolled back, the lock released
    | Finish(m: nat)

  /** The sorted known versions that the ledger does not list. */
  function PendingOf(known: seq<Name>, ledger: set<Name>): seq<Name> {
    if known == [] then []
    else PendingOf(known[..|known| - 1], ledger) + if known[|known| - 1] in ledger then [] else [known[|known| - 1]]
  }

  predicate Active(s: State, m: nat, phase: Phase) {
    m in s.migrators && s.migrators[m].phase == phase
  }

  predicate Enabled(s: State, step: Step) {
    match step
    case Begin(m) => m !in s.migrators
    case Lock(m) => Active(s, m, Between) && s.lock.None? && s.migrators[m].next < |s.migrators[m].pending|
    case Skip(m) => Active(s, m, Locked) && s.migrators[m].next < |s.migrators[m].pending|
                    && s.migrators[m].pending[s.migrators[m].next] in s.ledger
    case Check(m) => Active(s, m, Locked) && s.migrators[m].next < |s.migrators[m].pending|
                     && s.migrators[m].pending[s.migrators[m].next] !in s.ledger
    case CommitTx(m, _) => Active(s, m, Checked) && s.migrators[m].next < |s.migrators[m].pending|
    case Fail(m) => m in s.migrators && !s.migrators[m].phase.Completed? && !s.migrators[m].phase.Aborted?
    case Finish(m) => Active(s, m, Between) && s.migrators[m].next == |s.migrators[m].pending|
  }

  function Released(s: State, m: nat): Option<nat> {
    if s.lock == Some(m) then None else s.lock
  }

  function Next(known: seq<Name>, s: State, step: Step): State
    requires Enabled(s, step)
  {
    match step
    case Begin(m) =>
      s.(migrators := s.migrators[m := Migrator(Between, PendingOf(known, s.ledger), 0, [])])
    case Lock(m) =>
      s.(lock := Some(m), migrators := s.migrators[m := s.migrators[m].(phase := Locked)])
    case Skip(m) =>
      var r := s.migrators[m];
      s.(lock := None, migrators := s.migrators[m := r.(phase := Between, next := r.next + 1)])
    case Check(m) =>
      s.(migrators := s.migrators[m := s.migrators[m].(phase := Checked)])
    case CommitTx(m, acked) =>
      var r := s.migrators[m];
      var v := r.pending[r.next];
      State(s.ledger + {v}, None,
            s.migrators[m := if acked then r.(phase := Between, next := r.next + 1, applied := r.applied + [v])
                             else r.(phase := Aborted)],
            s.commits + [Commit(v, m, acked)])
    case Fail(m) =>
      s.(lock := Released(s, m), migrators := s.migrators[m := s.migrators[m].(phase := Aborted)])
    case Finish(m) =>
      s.(migrators := s.migrators[m := s.migrators[m].(phase := Completed)])
  }

  function Start(ledger: set<Name>): State {
    State(ledger, None, map[], [])
  }

  ghost predicate IsRun(known: seq<Name>, ledger: set<Name>, steps: seq<Step>)
    decreases |steps|, 0
  {
    steps != [] ==>
      var n := |steps| - 1;
      IsRun(known, ledger, steps[..n]) && Enabled(After(known, ledger, steps[..n]), steps[n])
  }

  ghost function After(known: seq<Name>, ledger: set<Name>, steps: seq<Step>): State
    requires IsRun(known, ledger, steps)
    decreases |steps|, 1
  {
    if steps == [] then Start(ledger)
    else
      var n := |steps| - 1;
      Next(known, After(known, ledger, steps[..n]), steps[n])
  }

  // What every step keeps.

  function VersionsOf(commits: seq<Commit>): set<Name> {
    set c | c in commits :: c.version
  }

  /** The versions a migrator was told it committed, in order. */
  function AckedBy(commits: seq<Commit>, m: nat): seq<Name> {
    if commits == [] then []
    else
      var c := commits[|commits| - 1];
      AckedBy(commits[..|commits| - 1], m) + if c.who == m && c.acked then [c.version] else []
  }

  ghost predicate OnceEach(commits: seq<Commit>) {
    forall i, j :: 0 <= i < j < |commits| ==> commits[i].version != commits[j].version
  }

  /** When a version was committed, every smaller known one was in the ledger. */
  ghost predicate InOrder(known: seq<Name>, initial: set<Name>, commits: seq<Commit>) {
    forall i, v :: 0 <= i < |commits| && v in known && Less(v, commits[i].version) ==>
                   v in initial + VersionsOf(commits[..i])
  }

  /** A migrator still at work: whatever it has yet to try is ascending, and everything else known is in the ledger. */
  ghost predicate Sound(known: seq<Name>, s: State, m: nat)
    requires m in s.migrators
  {
    var r := s.migrators[m];
    && r.next <= |r.pending| && Ascending(r.pending)
    && (forall v :: v in r.pending ==> v in known)
    && r.applied == AckedBy(s.commits, m)
    && (r.phase.Aborted? || (
          && (forall v :: v in known ==> v in s.ledger || v in r.pending[r.next..])
          && (r.phase.Locked? || r.phase.Checked? ==> s.lock == Some(m) && r.next < |r.pending|)
          && (r.phase.Checked? ==> r.pending[r.next] !in s.ledger)
          && (r.phase.Completed? ==> r.next == |r.pending|)))
  }

  ghost predicate Inv(known: seq<Name>, initial: set<Name>, s: State) {
    && s.ledger == initial + VersionsOf(s.commits)
    && initial !! VersionsOf(s.commits) && OnceEach(s.commits)
    && (forall c :: c in s.commits ==> c.version in known && c.who in s.migrators)
    && InOrder(known, initial, s.commits)
    && forall m :: m in s.migrators ==> Sound(known, s, m)
  }

  lemma {:induction false} PendingAre(known: seq<Name>, ledger: set<Name>)
    requires Ascending(known)
    ensures Ascending(PendingOf(known, ledger))
    ensures forall v :: v in PendingOf(known, ledger) <==> v in known && v !in ledger
  {
    if known != [] {
      var init := known[..|known| - 1];
      PendingAre(init, ledger);
      assert known == init + [known[|known| - 1]];
      forall i | 0 <= i < |PendingOf(init, ledger)|
        ensures Less(PendingOf(init, ledger)[i], known[|known| - 1])
      {
        assert PendingOf(init, ledger)[i] in PendingOf(init, ledger);
        var k :| 0 <= k < |init| && init[k] == PendingOf(init, ledger)[i];
        assert known[k] == init[k];
      }
    }
  }

  lemma {:induction false} AckedByStranger(commits: seq<Commit>, m: nat)
    requires forall c :: c in commits ==> c.who != m
    ensures AckedBy(commits, m) == []
  {
    if commits != [] {
      AckedByStranger(commits[..|commits| - 1], m);
    }
  }

  lemma AfterCommit(commits: seq<Commit>, c: Commit, m: nat)
    ensures AckedBy(commits + [c], m) == AckedBy(commits, m) + if c.who == m && c.acked then [c.version] else []
    ensures VersionsOf(commits + [c]) == VersionsOf(commits) + {c.version}
  {
    assert (commits + [c])[..|commits|] == commits;
  }

  lemma BeginKeeps(known: seq<Name>, initial: set<Name>, s: State, m: nat)
    requires Ascending(known) && Inv(known, initial, s) && Enabled(s, Begin(m))
    ensures Inv(known, initial, Next(known, s, Begin(m)))
  {
    PendingAre(known, s.ledger);
    AckedByStranger(s.commits, m);
    var after := Next(known, s, Begin(m));
    assert after.migrators[m].pending[0..] == after.migrators[m].pending;
    forall other | other in after.migrators
      ensures Sound(known, after, other)
    {
      if other != m {
        assert Sound(known, s, other);
      }
    }
  }

  /** A known version smaller than the one tried next is in the ledger. */
  lemma SmallerIsCommitted(known: seq<Name>, s: State, m: nat, v: Name)
    requires m in s.migrators && Sound(known, s, m) && !s.migrators[m].phase.Aborted?
    requires s.migrators[m].next < |s.migrators[m].pending| && v in known
    requires Less(v, s.migrators[m].pending[s.migrators[m].next])
    ensures v in s.ledger
  {
    var r := s.migrators[m];
    if v in r.pending[r.next..] {
      var i :| r.next <= i < |r.pending| && r.pending[i] == v;
      if i > r.next {
        LessTransitive(v, r.pending[r.next], v);
      }
      LessIrreflexive(v);
    }
  }

  lemma CommitInOrder(known: seq<Name>, initial: set<Name>, s: State, m: nat, c: Commit)
    requires Inv(known, initial, s) && m in s.migrators && s.migrators[m].phase.Checked?
    requires s.migrators[m].next < |s.migrators[m].pending| && c.version == s.migrators[m].pending[s.migrators[m].next]
    ensures InOrder(known, initial, s.commits + [c]) && OnceEach(s.commits + [c])
    ensures c.version !in s.ledger && c.version in known
  {
    assert Sound(known, s, m);
    var after := s.commits + [c];
    forall i, u | 0 <= i < |after| && u in known && Less(u, after[i].version)
      ensures u in initial + VersionsOf(after[..i])
    {
      if i < |s.commits| {
        assert after[..i] == s.commits[..i];
        assert after[i] == s.commits[i];
      } else {
        assert after[..i] == s.commits;
        SmallerIsCommitted(known, s, m, u);
      }
    }
    forall i | 0 <= i < |s.commits|
      ensures s.commits[i].version != c.version
    {
      assert s.commits[i] in s.commits && s.commits[i].version in VersionsOf(s.commits);
    }
  }

  lemma CommitSoundSelf(known: seq<Name>, s: State, m: nat, acked: bool)
    requires Enabled(s, CommitTx(m, acked)) && Sound(known, s, m)
    ensures Sound(known, Next(known, s, CommitTx(m, acked)), m)
  {
    var r := s.migrators[m];
    var v := r.pending[r.next];
    AfterCommit(s.commits, Commit(v, m, acked), m);
    hide AckedBy, VersionsOf, Less;
    if acked {
      SuffixSplits(r.pending, r.next);
    }
  }

  lemma CommitSoundOther(known: seq<Name>, s: State, m: nat, acked: bool, other: nat)
    requires Enabled(s, CommitTx(m, acked)) && Sound(known, s, m) && other in s.migrators && other != m
    requires Sound(known, s, other)
    ensures Sound(known, Next(known, s, CommitTx(m, acked)), other)
  {
    var r := s.migrators[m];
    AfterCommit(s.commits, Commit(r.pending[r.next], m, acked), other);
    hide AckedBy, VersionsOf, Less, Ascending;
    assert Next(known, s, CommitTx(m, acked)).migrators[other] == s.migrators[other];
  }

  lemma CommitFields(known: seq<Name>, s: State, m: nat, acked: bool)
    requires Enabled(s, CommitTx(m, acked))
    ensures
      var c := Commit(s.migrators[m].pending[s.migrators[m].next], m, acked);
      var after := Next(known, s, CommitTx(m, acked));
      && after.ledger == s.ledger + {c.version} && after.commits == s.commits + [c]
      && after.migrators.Keys == s.migrators.Keys
  {}

  lemma CommitLedger(initial: set<Name>, ledger: set<Name>, commits: seq<Commit>, c: Commit)
    requires ledger == initial + VersionsOf(commits) && initial !! VersionsOf(commits) && c.version !in ledger
    ensures ledger + {c.version} == initial + VersionsOf(commits + [c]) && initial !! VersionsOf(commits + [c])
  {
    AfterCommit(commits, c, c.who);
  }

  lemma CommitKeeps(known: seq<Name>, initial: set<Name>, s: State, m: nat, acked: bool)
    requires Inv(known, initial, s) && Enabled(s, CommitTx(m, acked))
    ensures Inv(known, initial, Next(known, s, CommitTx(m, acked)))
  {
    hide Next, Sound, InOrder, OnceEach, VersionsOf, Less;
    var r := s.migrators[m];
    var c := Commit(r.pending[r.next], m, acked);
    var after := Next(known, s, CommitTx(m, acked));
    CommitFields(known, s, m, acked);
    CommitInOrder(known, initial, s, m, c);
    CommitLedger(initial, s.ledger, s.commits, c);
    forall other | other in after.migrators
      ensures Sound(known, after, other)
    {
      if other == m {
        CommitSoundSelf(known, s, m, acked);
      } else {
        CommitSoundOther(known, s, m, acked, other);
      }
    }
  }

  lemma SuffixSplits(s: seq<Name>, n: nat)
    requires n < |s|
    ensures s[n..] == [s[n]] + s[n + 1..]
  {}

  lemma QuietSound(known: seq<Name>, s: State, step: Step, other: nat)
    requires Enabled(s, step) && !step.Begin? && !step.CommitTx? && other in s.migrators
    requires Sound(known, s, other) && Sound(known, s, step.m)
    ensures Sound(known, Next(known, s, step), other)
  {
    hide AckedBy, Ascending, Less;
    var r := s.migrators[other];
    if step.Skip? && step.m == other {
      assert r.next < |r.pending|;
      SuffixSplits(r.pending, r.next);
    }
  }

  lemma QuietKeeps(known: seq<Name>, initial: set<Name>, s: State, step: Step)
    requires Inv(known, initial, s) && Enabled(s, step) && !step.Begin? && !step.CommitTx?
    ensures Inv(known, initial, Next(known, s, step))
  {
    var after := Next(known, s, step);
    assert after.ledger == s.ledger && after.commits == s.commits && after.migrators.Keys == s.migrators.Keys;
    hide Next, Sound, InOrder, OnceEach, VersionsOf;
    forall other | other in after.migrators
      ensures Sound(known, after, other)
    {
      QuietSound(known, s, step, other);
    }
  }

  lemma StepKeeps(known: seq<Name>, initial: set<Name>, s: State, step: Step)
    requires Ascending(known) && Inv(known, initial, s) && Enabled(s, step)
    ensures Inv(known, initial, Next(known, s, step))
  {
    match step
    case Begin(m) => BeginKeeps(known, initial, s, m);
    case CommitTx(m, acked) => CommitKeeps(known, initial, s, m, acked);
    case _ => QuietKeeps(known, initial, s, step);
  }

  lemma {:induction false} RunKeeps(known: seq<Name>, initial: set<Name>, steps: seq<Step>)
    requires Ascending(known) && IsRun(known, initial, steps)
    ensures Inv(known, initial, After(known, initial, steps))
  {
    if steps != [] {
      var n := |steps| - 1;
      RunKeeps(known, initial, steps[..n]);
      StepKeeps(known, initial, After(known, initial, steps[..n]), steps[n]);
    }
  }

  // What it means for whole runs.

  /** No version is committed twice, none the ledger began with, and the ledger is exactly what was committed. */
  lemma CommittedOnce(known: seq<Name>, initial: set<Name>, steps: seq<Step>)
    requires Ascending(known) && IsRun(known, initial, steps)
    ensures
      var s := After(known, initial, steps);
      && OnceEach(s.commits) && initial !! VersionsOf(s.commits)
      && s.ledger == initial + VersionsOf(s.commits) && VersionsOf(s.commits) <= Elements(known)
  {
    RunKeeps(known, initial, steps);
  }

  /** The known versions in the ledger come before those that are not. */
  ghost predicate IsPrefix(known: seq<Name>, ledger: set<Name>) {
    exists n :: SplitsAt(known, ledger, n)
  }

  ghost predicate SplitsAt(known: seq<Name>, ledger: set<Name>, n: nat) {
    n <= |known| && forall i :: 0 <= i < |known| ==> (known[i] in ledger <==> i < n)
  }

  ghost predicate DownClosed(known: seq<Name>, ledger: set<Name>) {
    forall i, j :: 0 <= i < j < |known| && known[j] in ledger ==> known[i] in ledger
  }

  lemma {:induction false} PrefixIffDownClosed(known: seq<Name>, ledger: set<Name>)
    ensures IsPrefix(known, ledger) <==> DownClosed(known, ledger)
  {
    if DownClosed(known, ledger) {
      var n := 0;
      while n < |known| && known[n] in ledger
        invariant 0 <= n <= |known|
        invariant forall i :: 0 <= i < n ==> known[i] in ledger
      {
        n := n + 1;
      }
      assert SplitsAt(known, ledger, n);
    }
  }

  lemma CommitsStayDownClosed(known: seq<Name>, initial: set<Name>, s: State, i: nat, j: nat)
    requires Ascending(known) && Inv(known, initial, s) && DownClosed(known, initial)
    requires i < j < |known| && known[j] in s.ledger
    ensures known[i] in s.ledger
  {
    hide Sound, OnceEach, Less;
    if known[j] !in initial {
      var k :| 0 <= k < |s.commits| && s.commits[k].version == known[j];
      assert known[i] in known && Less(known[i], s.commits[k].version);
      assert known[i] in initial + VersionsOf(s.commits[..k]);
    }
  }

  /** A ledger that began as a prefix of the known versions stays one, whoever fails or crashes wherever. */
  lemma LedgerStaysPrefix(known: seq<Name>, initial: set<Name>, steps: seq<Step>)
    requires Ascending(known) && IsRun(known, initial, steps) && IsPrefix(known, initial)
    ensures IsPrefix(known, After(known, initial, steps).ledger)
  {
    RunKeeps(known, initial, steps);
    hide Inv;
    var s := After(known, initial, steps);
    PrefixIffDownClosed(known, initial);
    forall i, j | 0 <= i < j < |known| && known[j] in s.ledger
      ensures known[i] in s.ledger
    {
      CommitsStayDownClosed(known, initial, s, i, j);
    }
    PrefixIffDownClosed(known, s.ledger);
  }

  /** A migrator's result lists the version as applied by it. */
  ghost predicate ReportedBy(s: State, v: Name, m: nat) {
    m in s.migrators && v in s.migrators[m].applied
  }

  lemma {:induction false} AckedByAre(commits: seq<Commit>, m: nat, v: Name)
    ensures v in AckedBy(commits, m) <==> Commit(v, m, true) in commits
  {
    if commits != [] {
      AckedByAre(commits[..|commits| - 1], m, v);
      assert commits == commits[..|commits| - 1] + [commits[|commits| - 1]];
    }
  }

  /**
   * Every version that is new in the ledger is on exactly one list of applied versions, or on none and its migrator
   * failed on the lost answer of its commit; and nothing else is on a list.
   */
  lemma NewIsReportedOnce(known: seq<Name>, initial: set<Name>, steps: seq<Step>, v: Name)
    requires Ascending(known) && IsRun(known, initial, steps)
    ensures
      var s := After(known, initial, steps);
      && ((exists m :: ReportedBy(s, v, m)) ==> v in s.ledger && v !in initial)
      && (forall m, m' :: ReportedBy(s, v, m) && ReportedBy(s, v, m') ==> m == m')
      && (v in s.ledger && v !in initial ==>
            exists c :: c in s.commits && c.version == v
                        && (if c.acked then ReportedBy(s, v, c.who) else c.who in s.migrators))
      && ((exists c :: c in s.commits && c.version == v && !c.acked) ==> forall m :: !ReportedBy(s, v, m))
  {
    RunKeeps(known, initial, steps);
    var s := After(known, initial, steps);
    forall m | m in s.migrators
      ensures ReportedBy(s, v, m) <==> Commit(v, m, true) in s.commits
    {
      assert Sound(known, s, m);
      AckedByAre(s.commits, m, v);
    }
    forall c, c' | c in s.commits && c' in s.commits && c.version == v && c'.version == v
      ensures c == c'
    {
      var i :| 0 <= i < |s.commits| && s.commits[i] == c;
      var j :| 0 <= j < |s.commits| && s.commits[j] == c';
    }
    forall m | ReportedBy(s, v, m)
      ensures v in s.ledger && v !in initial
    {
      assert Commit(v, m, true) in s.commits;
    }
    if v in s.ledger && v !in initial {
      var c :| c in s.commits && c.version == v;
      assert c == Commit(v, c.who, c.acked);
    }
  }

  /** The migrator of an unreported commit failed on it, and committed nothing after. */
  ghost predicate LostEnds(s: State) {
    forall i :: 0 <= i < |s.commits| && !s.commits[i].acked ==>
                Active(s, s.commits[i].who, Aborted) && LastOf(s.commits, i)
  }

  ghost predicate LastOf(commits: seq<Commit>, i: nat)
    requires i < |commits|
  {
    forall j :: i < j < |commits| ==> commits[j].who != commits[i].who
  }

  lemma LostStepEnds(known: seq<Name>, s: State, step: Step)
    requires Enabled(s, step) && LostEnds(s)
    ensures LostEnds(Next(known, s, step))
  {
    var after := Next(known, s, step);
    forall i | 0 <= i < |after.commits| && !after.commits[i].acked
      ensures Active(after, after.commits[i].who, Aborted) && LastOf(after.commits, i)
    {
      if i < |s.commits| {
        assert after.commits[i] == s.commits[i];
        assert LastOf(s.commits, i);
      }
    }
  }

  /** A lost answer ends its migrator: each run has at most one unreported commit, its last. */
  lemma {:induction false} LostCommitFails(known: seq<Name>, initial: set<Name>, steps: seq<Step>)
    requires IsRun(known, initial, steps)
    ensures LostEnds(After(known, initial, steps))
  {
    if steps != [] {
      var n := |steps| - 1;
      LostCommitFails(known, initial, steps[..n]);
      LostStepEnds(known, After(known, initial, steps[..n]), steps[n]);
    }
  }

  /** A migrator that finished without an error leaves every known version in the ledger, for good. */
  lemma FinishedIsComplete(known: seq<Name>, initial: set<Name>, steps: seq<Step>, m: nat)
    requires Ascending(known) && IsRun(known, initial, steps)
    requires Active(After(known, initial, steps), m, Completed)
    ensures Elements(known) <= After(known, initial, steps).ledger
  {
    RunKeeps(known, initial, steps);
    assert Sound(known, After(known, initial, steps), m);
  }

  /** The re-check under the lock is what keeps a version from running twice: what it found missing stays missing. */
  lemma CheckedStaysMissing(known: seq<Name>, initial: set<Name>, steps: seq<Step>, m: nat)
    requires Ascending(known) && IsRun(known, initial, steps)
    requires Active(After(known, initial, steps), m, Checked)
    ensures
      var s := After(known, initial, steps);
      var r := s.migrators[m];
      s.lock == Some(m) && r.next < |r.pending| && r.pending[r.next] !in s.ledger
  {
    RunKeeps(known, initial, steps);
    assert Sound(known, After(known, initial, steps), m);
  }
}
