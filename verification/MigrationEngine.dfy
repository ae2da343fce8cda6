/** migrations.go:145-244: one call of the engine, with what other migrators commit while it runs. */
module MigrationEngine {
  import opened Basics
  import opened Names
  import opened MigrationProtocol

  datatype Outcome = Outcome(applied: seq<Name>, pending: seq<Name>, unknown: seq<Name>, already: nat)

  const NOTHING := Outcome([], [], [], 0)

  function UnionOf(others: seq<set<Name>>): set<Name> {
    if others == [] then {} else UnionOf(others[..|others| - 1]) + others[|others| - 1]
  }

  /** The first `k` pending versions that nobody else had committed by the time their turn came. */
  function Missing(pending: seq<Name>, others: seq<set<Name>>, k: nat): seq<Name>
    requires k <= |pending| && k <= |others|
  {
    if k == 0 then []
    else Missing(pending, others, k - 1) + if pending[k - 1] in UnionOf(others[..k]) then [] else [pending[k - 1]]
  }

  lemma {:induction false} MissingAre(pending: seq<Name>, others: seq<set<Name>>, k: nat, v: Name)
    requires k <= |pending| && k <= |others|
    ensures v in Missing(pending, others, k) <==>
            exists j :: 0 <= j < k && pending[j] == v && v !in UnionOf(others[..j + 1])
  {
    if k > 0 {
      MissingAre(pending, others, k - 1, v);
      if v == pending[k - 1] && v !in UnionOf(others[..k]) {
        assert others[..k - 1 + 1] == others[..k];
      }
    }
  }

  lemma {:induction false} MissingAscends(pending: seq<Name>, others: seq<set<Name>>, k: nat)
    requires k <= |pending| && k <= |others| && Ascending(pending)
    ensures Ascending(Missing(pending, others, k))
  {
    if k > 0 {
      MissingAscends(pending, others, k - 1);
      var before := Missing(pending, others, k - 1);
      forall i | 0 <= i < |before|
        ensures Less(before[i], pending[k - 1])
      {
        MissingAre(pending, others, k - 1, before[i]);
      }
    }
  }

  /** A version is tried once. */
  lemma NotYetApplied(pending: seq<Name>, others: seq<set<Name>>, k: nat)
    requires Ascending(pending) && k < |pending| && k <= |others|
    ensures pending[k] !in Missing(pending, others, k)
  {
    MissingAre(pending, others, k, pending[k]);
    forall j | 0 <= j < k
      ensures pending[j] != pending[k]
    {
      LessIrreflexive(pending[j]);
      assert Less(pending[j], pending[k]);
    }
  }

  lemma {:induction false} UnionGrows(others: seq<set<Name>>, j: nat, k: nat)
    requires j <= k <= |others|
    ensures UnionOf(others[..j]) <= UnionOf(others[..k])
  {
    if j < k {
      UnionGrows(others, j, k - 1);
      assert others[..k][..k - 1] == others[..k - 1];
    }
  }

  lemma UnionNext(others: seq<set<Name>>, k: nat)
    requires k < |others|
    ensures UnionOf(others[..k + 1]) == UnionOf(others[..k]) + others[k]
  {
    assert others[..k + 1][..k] == others[..k];
  }

  /** What the database holds after the first `k` transactions. */
  function LedgerAt(ledger: set<Name>, pending: seq<Name>, others: seq<set<Name>>, k: nat): set<Name>
    requires k <= |pending| && k <= |others|
  {
    ledger + UnionOf(others[..k]) + Elements(Missing(pending, others, k))
  }

  lemma NothingYet(ledger: set<Name>, pending: seq<Name>, others: seq<set<Name>>)
    ensures LedgerAt(ledger, pending, others, 0) == ledger
  {}

  /** With every transaction through, everything pending is in the ledger, by this migrator or another. */
  lemma AllThrough(ledger: set<Name>, pending: seq<Name>, others: seq<set<Name>>, k: nat)
    requires k <= |pending| && k <= |others|
    ensures Elements(pending[..k]) <= LedgerAt(ledger, pending, others, k)
  {
    forall v | v in pending[..k]
      ensures v in LedgerAt(ledger, pending, others, k)
    {
      var j :| 0 <= j < k && pending[j] == v;
      MissingAre(pending, others, k, v);
      UnionGrows(others, j + 1, k);
    }
  }

  lemma LedgerNext(ledger: set<Name>, pending: seq<Name>, others: seq<set<Name>>, k: nat)
    requires Ascending(pending) && k < |pending| && k < |others| && pending[k] !in ledger
    ensures
      var now := LedgerAt(ledger, pending, others, k) + others[k];
      && (pending[k] in now <==> pending[k] in UnionOf(others[..k + 1]))
      && LedgerAt(ledger, pending, others, k + 1) == (if pending[k] in now then now else now + {pending[k]})
  {
    UnionNext(others, k);
    NotYetApplied(pending, others, k);
  }

  lemma {:induction false} PendingNext(known: seq<Name>, ledger: set<Name>, i: nat)
    requires i < |known|
    ensures PendingOf(known[..i + 1], ledger)
         == PendingOf(known[..i], ledger) + if known[i] in ledger then [] else [known[i]]
  {
    assert known[..i + 1][..i] == known[..i];
  }

  lemma NothingPending(ledger: set<Name>)
    ensures PendingOf([], ledger) == [] && ledger * Elements([]) == {}
  {}

  lemma AlreadyNext(known: seq<Name>, ledger: set<Name>, i: nat)
    requires Ascending(known) && i < |known|
    ensures Elements(known[..i + 1]) == Elements(known[..i]) + {known[i]}
    ensures |ledger * Elements(known[..i + 1])| == |ledger * Elements(known[..i])| + if known[i] in ledger then 1 else 0
  {
    assert known[..i + 1] == known[..i] + [known[i]];
    assert known[i] !in known[..i] by {
      LessIrreflexive(known[i]);
    }
    var before := ledger * Elements(known[..i]);
    assert ledger * Elements(known[..i + 1]) == if known[i] in ledger then before + {known[i]} else before;
  }

  class Database {
    var ledger: set<Name>

    constructor (ledger: set<Name>)
      ensures this.ledger == ledger
    {
      this.ledger := ledger;
    }

    /**
     * One migration in one transaction. `others` is what other migrators commit before this one has the lock; the
     * transaction's outcome is given. `wrote` is false when another migrator was first.
     */
    method ApplyOne(version: Name, others: set<Name>, reply: Reply) returns (wrote: bool, ok: bool)
      modifies this
      ensures
        var seen := version in old(ledger) + others;
        && ok == (!reply.Failed? && (seen || reply.Acked?)) && wrote == (ok && !seen)
        && ledger == old(ledger) + others + (if reply.Failed? then {} else {version})
    {
      ledger := ledger + others;
      if reply.Failed? {
        return false, false;
      }
      if version in ledger {
        return false, true;
      }
      ledger := ledger + {version};
      return reply.Acked?, reply.Acked?;
    }

    /** The versions in the ledger that are not known, sorted. */
    method Strangers(known: set<Name>) returns (unknown: seq<Name>)
      ensures Ascending(unknown) && Elements(unknown) == ledger - known
    {
      hide Less, Sort;
      unknown := [];
      var rest := ledger;
      while rest != {}
        invariant rest <= ledger
        invariant Elements(unknown) == (ledger - rest) - known
        invariant forall i, j :: 0 <= i < j < |unknown| ==> unknown[i] != unknown[j]
        decreases |rest|
      {
        var v :| v in rest;
        rest := rest - {v};
        if v !in known {
          forall i | 0 <= i < |unknown|
            ensures unknown[i] != v
          {
            assert unknown[i] in Elements(unknown);
          }
          assert Elements(unknown + [v]) == Elements(unknown) + {v};
          unknown := unknown + [v];
        }
      }
      SortAscending(unknown);
      unknown := Sort(unknown);
    }

    /**
     * Applies every version the ledger does not list, in order. `others[j]` and `replies[j]` are the surroundings and
     * the outcome of the j-th transaction; `done` is the number of transactions that went through.
     */
    method ApplyMigrations(readable: bool, ms: seq<Name>, dryRun: bool, others: seq<set<Name>>, replies: seq<Reply>)
      returns (res: Outcome, ok: bool, ghost done: nat)
      requires forall i, j :: 0 <= i < j < |ms| ==> ms[i] != ms[j]
      requires |others| == |replies| == |ms|
      modifies this
      ensures !readable ==> !ok && res == NOTHING && ledger == old(ledger)
      ensures readable ==> Ascending(res.unknown) && Elements(res.unknown) == old(ledger) - Elements(ms)
                           && res.already == |old(ledger) * Elements(ms)|
      ensures InByteOrder(res.applied) && InByteOrder(res.pending) && InByteOrder(res.unknown)
      ensures readable && dryRun ==> ok && ledger == old(ledger) && res.applied == []
                                     && res.pending == PendingOf(Sort(ms), old(ledger))
      ensures readable && !dryRun ==>
                var pending := PendingOf(Sort(ms), old(ledger));
                && done <= |pending| && done <= |ms| && res.pending == []
                && res.applied == Missing(pending, others, done) && ok == (done == |pending|)
                && (ok ==> ledger == LedgerAt(old(ledger), pending, others, done) && Elements(ms) <= ledger)
                && (!ok ==> done < |ms| && !replies[done].Acked?
                            && ledger == LedgerAt(old(ledger), pending, others, done) + others[done]
                                         + if replies[done].Lost? then {pending[done]} else {})
    {
      done := 0;
      if !readable {
        return NOTHING, false, 0;
      }
      SortAscending(ms);
      var sorted := Sort(ms);
      var unknown, pending, already := Survey(sorted);
      PendingAre(sorted, ledger);
      PendingLength(sorted, ledger);
      SortKeepsLength(ms);
      AscendingIff(unknown);
      AscendingIff(pending);
      if dryRun {
        return Outcome([], pending, unknown, already), true, 0;
      }
      var applied: seq<Name>;
      applied, ok, done := ApplyPending(pending, others, replies);
      res := Outcome(applied, [], unknown, already);
      MissingAscends(pending, others, done);
      AscendingIff(applied);
      if ok {
        AllThrough(old(ledger), pending, others, done);
        EverythingKnown(ms, old(ledger), pending);
        assert pending[..done] == pending;
      }
    }

    /** What the ledger lists beyond the known versions, and which and how many of those it lists. */
    method Survey(sorted: seq<Name>) returns (unknown: seq<Name>, pending: seq<Name>, already: nat)
      requires Ascending(sorted)
      ensures Ascending(unknown) && Elements(unknown) == ledger - Elements(sorted)
      ensures pending == PendingOf(sorted, ledger) && already == |ledger * Elements(sorted)|
    {
      hide Less, PendingOf, VersionsOf;
      NothingPending(ledger);
      var known: set<Name> := {};
      for i := 0 to |sorted|
        invariant known == Elements(sorted[..i])
      {
        AlreadyNext(sorted, ledger, i);
        known := known + {sorted[i]};
      }
      assert sorted[..|sorted|] == sorted;
      unknown := Strangers(known);
      pending := [];
      already := 0;
      for i := 0 to |sorted|
        invariant pending == PendingOf(sorted[..i], ledger) && already == |ledger * Elements(sorted[..i])|
      {
        PendingNext(sorted, ledger, i);
        AlreadyNext(sorted, ledger, i);
        if sorted[i] in ledger {
          already := already + 1;
          continue;
        }
        pending := pending + [sorted[i]];
      }
    }

    /** The loop over the pending versions. */
    method ApplyPending(pending: seq<Name>, others: seq<set<Name>>, replies: seq<Reply>)
      returns (applied: seq<Name>, ok: bool, ghost done: nat)
      requires Ascending(pending) && |pending| <= |others| == |replies|
      requires forall v :: v in pending ==> v !in ledger
      modifies this
      ensures done <= |pending| && ok == (done == |pending|) && applied == Missing(pending, others, done)
      ensures ok ==> ledger == LedgerAt(old(ledger), pending, others, done)
      ensures !ok ==> !replies[done].Acked?
                      && ledger == LedgerAt(old(ledger), pending, others, done) + others[done]
                                   + if replies[done].Lost? then {pending[done]} else {}
    {
      hide UnionOf, Less;
      NothingYet(old(ledger), pending, others);
      applied := [];
      done := 0;
      for i := 0 to |pending|
        invariant done == i && applied == Missing(pending, others, i)
        invariant ledger == LedgerAt(old(ledger), pending, others, i)
      {
        LedgerNext(old(ledger), pending, others, i);
        UnionNext(others, i);
        var wrote, through := ApplyOne(pending[i], others[i], replies[i]);
        if !through {
          return applied, false, done;
        }
        if wrote {
          applied := applied + [pending[i]];
        }
        done := i + 1;
      }
      ok := true;
    }
  }

  lemma EverythingKnown(ms: seq<Name>, ledger: set<Name>, pending: seq<Name>)
    requires Ascending(Sort(ms)) && Elements(Sort(ms)) == Elements(ms) && pending == PendingOf(Sort(ms), ledger)
    ensures Elements(ms) <= ledger + Elements(pending)
  {
    PendingAre(Sort(ms), ledger);
    forall v | v in Elements(ms)
      ensures v in ledger + Elements(pending)
    {
      assert v in Elements(Sort(ms));
    }
  }

  lemma {:induction false} PendingLength(known: seq<Name>, ledger: set<Name>)
    ensures |PendingOf(known, ledger)| <= |known|
  {
    if known != [] {
      PendingLength(known[..|known| - 1], ledger);
    }
  }

  lemma {:induction false} InsertLength(n: Name, s: seq<Name>)
    ensures |Insert(n, s)| == |s| + 1
  {
    if s != [] && !Less(n, s[0]) {
      InsertLength(n, s[1..]);
    }
  }

  lemma {:induction false} SortKeepsLength(s: seq<Name>)
    ensures |Sort(s)| == |s|
  {
    if s != [] {
      SortKeepsLength(s[1..]);
      InsertLength(s[0], Sort(s[1..]));
    }
  }
}
