/**
 Migration ledgers. Both migrators apply the least pending version and roll back the greatest
 applied one; a ledger is a run of such moves, stopped anywhere.
 */
module Migrations {
  import opened Sorting

  // A parsed up-file; `downs` of a migrator are the files for which Down finds a counterpart.
  datatype File = File(version: nat, name: string)

  function Versions(files: seq<File>): set<nat> {
    set i | 0 <= i < |files| :: files[i].version
  }

  /** The versions of a file set are distinct. */
  predicate DistinctVersions(files: seq<File>) {
    forall i, j :: 0 <= i < j < |files| ==> files[i].version != files[j].version
  }

  datatype Move = Apply(version: nat) | Rollback(version: nat)

  function Effect(applied: set<nat>, m: Move): set<nat> {
    match m
    case Apply(v) => applied + {v}
    case Rollback(v) => applied - {v}
  }

  /** The versions applied after a sequence of moves. */
  function Replay(moves: seq<Move>): set<nat> {
    if moves == [] then {} else Effect(Replay(moves[..|moves| - 1]), moves[|moves| - 1])
  }

  /** v is the least version that has not been applied. */
  ghost predicate IsNext(applied: set<nat>, files: seq<File>, v: nat) {
    v in Versions(files) - applied && forall u :: u in Versions(files) - applied ==> v <= u
  }

  predicate IsGreatest(applied: set<nat>, v: nat) {
    v in applied && forall u :: u in applied ==> u <= v
  }

  ghost predicate LegalMove(applied: set<nat>, files: seq<File>, m: Move) {
    match m
    case Apply(v) => IsNext(applied, files, v)
    case Rollback(v) => IsGreatest(applied, v)
  }

  /** A run: every move applies the next version or rolls the greatest one back. */
  ghost predicate Legal(moves: seq<Move>, files: seq<File>) {
    moves == [] ||
    (var before := moves[..|moves| - 1];
     Legal(before, files) && LegalMove(Replay(before), files, moves[|moves| - 1]))
  }

  /** The applied versions are the first few of the sorted versions. */
  ghost predicate IsPrefix(applied: set<nat>, files: seq<File>) {
    && applied <= Versions(files)
    && forall u, v :: u in Versions(files) && v in applied && u < v ==> u in applied
  }

  lemma ApplyKeepsPrefix(applied: set<nat>, files: seq<File>, v: nat)
    requires IsPrefix(applied, files) && IsNext(applied, files, v)
    ensures IsPrefix(applied + {v}, files)
  {
    forall u, w | u in Versions(files) && w in applied + {v} && u < w
      ensures u in applied + {v}
    {
      if w == v {
        assert u !in Versions(files) - applied;
      }
    }
  }

  lemma RollbackKeepsPrefix(applied: set<nat>, files: seq<File>, v: nat)
    requires IsPrefix(applied, files) && IsGreatest(applied, v)
    ensures IsPrefix(applied - {v}, files)
  {
  }

  /** Whatever was applied, rolled back or interrupted, the applied set is a prefix of the sorted versions. */
  lemma {:induction false} AppliedIsPrefix(moves: seq<Move>, files: seq<File>)
    requires Legal(moves, files)
    ensures IsPrefix(Replay(moves), files)
  {
    if moves == [] {
    } else {
      var before := moves[..|moves| - 1];
      AppliedIsPrefix(before, files);
      match moves[|moves| - 1]
      case Apply(v) => ApplyKeepsPrefix(Replay(before), files, v);
      case Rollback(v) => RollbackKeepsPrefix(Replay(before), files, v);
    }
  }

  /** One more legal move. */
  lemma ExtendLegal(moves: seq<Move>, files: seq<File>, m: Move)
    requires Legal(moves, files) && LegalMove(Replay(moves), files, m)
    ensures Legal(moves + [m], files) && Replay(moves + [m]) == Effect(Replay(moves), m)
  {
    assert (moves + [m])[..|moves|] == moves;
  }

  // ---- pending files in order ----

  function VersionKey(f: File): int {
    f.version
  }

  /** pending lists the files whose version is not applied, by version. */
  ghost predicate IsPending(pending: seq<File>, files: seq<File>, applied: set<nat>) {
    && Sorted(pending, VersionKey)
    && forall f :: f in pending <==> f in files && f.version !in applied
  }

  /** Walks the files, skips the applied ones and sorts the rest by version. */
  method LoadMigrations(files: seq<File>, applied: set<nat>) returns (pending: seq<File>)
    requires DistinctVersions(files)
    ensures IsPending(pending, files, applied)
  {
    pending := [];
    for n := 0 to |files|
      invariant Sorted(pending, VersionKey)
      invariant forall f :: f in pending <==> f in files[..n] && f.version !in applied
    {
      var f := files[n];
      assert files[..n + 1] == files[..n] + [f];
      if f.version !in applied {
        forall i | 0 <= i < |pending|
          ensures pending[i].version != f.version
        {
          assert pending[i] in files[..n];
          var k :| 0 <= k < n && files[..n][k] == pending[i];
          assert files[k] == pending[i];
        }
        pending := Insert(pending, VersionKey, f);
      }
    }
    assert files[..|files|] == files;
  }

  lemma FirstPendingIsNext(pending: seq<File>, files: seq<File>, applied: set<nat>)
    requires IsPending(pending, files, applied) && pending != []
    ensures IsNext(applied, files, pending[0].version)
    ensures IsPending(pending[1..], files, applied + {pending[0].version})
  {
    assert pending[0] in pending;
    var rest := pending[1..];
    forall u | u in Versions(files) - applied
      ensures pending[0].version <= u
    {
      var i :| 0 <= i < |files| && files[i].version == u;
      assert files[i] in pending;
    }
    forall f
      ensures f in rest <==> f in files && f.version !in applied + {pending[0].version}
    {
      if f in pending && f.version != pending[0].version {
        var k :| 0 <= k < |pending| && pending[k] == f;
        assert f == rest[k - 1];
      }
    }
  }

  lemma NothingPending(files: seq<File>, applied: set<nat>)
    requires IsPending([], files, applied) && applied <= Versions(files)
    ensures applied == Versions(files)
  {
    forall v | v in Versions(files)
      ensures v in applied
    {
      var i :| 0 <= i < |files| && files[i].version == v;
      var none: seq<File> := [];
      assert files[i] in none || files[i].version in applied;
    }
  }

  lemma VersionsOfLonger(files: seq<File>, n: nat)
    requires n < |files|
    ensures Versions(files[..n + 1]) == Versions(files[..n]) + {files[n].version}
  {
    var a, b := files[..n + 1], files[..n];
    forall v | v in Versions(b) + {files[n].version}
      ensures v in Versions(a)
    {
      if v in Versions(b) {
        var i :| 0 <= i < |b| && b[i].version == v;
        assert a[i].version == v;
      } else {
        assert a[n].version == v;
      }
    }
  }

  method Greatest(applied: set<nat>) returns (v: nat)
    requires applied != {}
    ensures IsGreatest(applied, v)
  {
    v :| v in applied;
    var todo := applied - {v};
    while todo != {}
      invariant todo <= applied && v in applied
      invariant forall u :: u in applied && u !in todo ==> u <= v
    {
      var u :| u in todo;
      todo := todo - {u};
      if u > v {
        v := u;
      }
    }
  }

  // ---- staff: statement and ledger row in one transaction ----

  // How one transaction ends; a commit may be reported as an error.
  datatype Tx = Commits | RollsBack | CommitsButErrors

  class StaffMigrator {
    const files: seq<File>
    const downs: set<nat>
    var ledger: set<nat>
    var schema: set<nat>
    ghost var moves: seq<Move>

    ghost predicate Valid()
      reads this
    {
      && DistinctVersions(files) && Legal(moves, files)
      && ledger == Replay(moves) && schema == ledger
    }

    constructor (files: seq<File>, downs: set<nat>)
      requires DistinctVersions(files)
      ensures Valid() && this.files == files && this.downs == downs && ledger == {}
    {
      this.files, this.downs := files, downs;
      ledger, schema, moves := {}, {}, [];
    }

    /** Runs the statement and records it, or neither. */
    method ApplyInTx(f: File, tx: Tx) returns (ok: bool)
      requires Valid() && IsNext(ledger, files, f.version)
      modifies this
      ensures Valid() && (ok <==> tx == Commits)
      ensures ledger == if tx == RollsBack then old(ledger) else old(ledger) + {f.version}
    {
      if tx != RollsBack {
        ExtendLegal(moves, files, Apply(f.version));
        schema := schema + {f.version};
        ledger := ledger + {f.version};
        moves := moves + [Apply(f.version)];
      }
      ok := tx == Commits;
    }

    method RollbackInTx(v: nat, tx: Tx) returns (ok: bool)
      requires Valid() && IsGreatest(ledger, v)
      modifies this
      ensures Valid() && (ok <==> tx == Commits)
      ensures ledger == if tx == RollsBack then old(ledger) else old(ledger) - {v}
    {
      if tx != RollsBack {
        ExtendLegal(moves, files, Rollback(v));
        schema := schema - {v};
        ledger := ledger - {v};
        moves := moves + [Rollback(v)];
      }
      ok := tx == Commits;
    }

    lemma LedgerIsPrefix()
      requires Valid()
      ensures IsPrefix(ledger, files)
    {
      AppliedIsPrefix(moves, files);
    }

    /** The transaction for the first pending file. */
    method ApplyFirst(f: File, tx: Tx, ghost rest: seq<File>) returns (done: bool)
      requires Valid() && rest != [] && rest[0] == f && IsPending(rest, files, ledger)
      modifies this
      ensures Valid() && (done <==> tx == Commits)
      ensures ledger == if tx == RollsBack then old(ledger) else old(ledger) + {f.version}
      ensures done ==> IsPending(rest[1..], files, ledger)
    {
      FirstPendingIsNext(rest, files, ledger);
      done := ApplyInTx(f, tx);
    }

    /** Applies pending versions in order until one transaction reports an error. The ghost results are
        the pending list and the number of versions that were committed without one. */
    method Up(txs: nat -> Tx) returns (ok: bool, ghost pending: seq<File>, ghost n: nat)
      requires Valid()
      modifies this
      ensures Valid() && IsPrefix(ledger, files)
      ensures IsPending(pending, files, old(ledger)) && n <= |pending| && forall i: nat :: i < n ==> txs(i) == Commits
      ensures ok ==> n == |pending| && ledger == Versions(files)
      ensures !ok ==> n < |pending| && txs(n) != Commits
                      && ledger == old(ledger) + Versions(pending[..if txs(n) == RollsBack then n else n + 1])
    {
      var todo := LoadMigrations(files, ledger);
      pending := todo;
      ok, n := ApplyAll(todo, txs);
      LedgerIsPrefix();
      if ok {
        assert todo[n..] == [] && todo[..n] == todo;
        NothingPending(files, ledger);
      }
    }

    /** The loop over the pending files; n is the number committed without an error. */
    method ApplyAll(todo: seq<File>, txs: nat -> Tx) returns (ok: bool, ghost n: nat)
      requires Valid() && IsPending(todo, files, ledger)
      modifies this
      ensures Valid() && n <= |todo| && forall i: nat :: i < n ==> txs(i) == Commits
      ensures ok ==> n == |todo| && IsPending(todo[n..], files, ledger)
      ensures !ok ==> n < |todo| && txs(n) != Commits
                      && ledger == old(ledger) + Versions(todo[..if txs(n) == RollsBack then n else n + 1])
    {
      n := 0;
      for k := 0 to |todo|
        invariant n == k && Valid() && IsPending(todo[k..], files, ledger)
        invariant ledger == old(ledger) + Versions(todo[..k])
        invariant forall i: nat :: i < k ==> txs(i) == Commits
      {
        var done := ApplyNth(todo, k, txs(k), old(ledger));
        if !done {
          return false, n;
        }
        n := n + 1;
      }
      ok := true;
    }

    method ApplyNth(todo: seq<File>, k: nat, tx: Tx, ghost before: set<nat>) returns (done: bool)
      requires Valid() && k < |todo| && IsPending(todo[k..], files, ledger)
      requires ledger == before + Versions(todo[..k])
      modifies this
      ensures Valid() && (done <==> tx == Commits)
      ensures ledger == before + Versions(todo[..if tx == RollsBack then k else k + 1])
      ensures done ==> IsPending(todo[k + 1..], files, ledger)
    {
      assert todo[k..][1..] == todo[k + 1..];
      VersionsOfLonger(todo, k);
      done := ApplyFirst(todo[k], tx, todo[k..]);
    }

    /** Rolls the last applied version back, if its down file exists. */
    method Down(tx: Tx) returns (ok: bool)
      requires Valid()
      modifies this
      ensures Valid() && IsPrefix(ledger, files)
      ensures old(ledger) == {} ==> ok && ledger == {}
      ensures old(ledger) != {} ==>
                exists v :: IsGreatest(old(ledger), v)
                            && ledger == (if v in downs && tx != RollsBack then old(ledger) - {v} else old(ledger))
                            && (ok <==> v in downs && tx == Commits)
    {
      LedgerIsPrefix();
      if ledger == {} {
        return true;
      }
      var last := Greatest(ledger);
      if last !in downs {
        return false;
      }
      ok := RollbackInTx(last, tx);
      LedgerIsPrefix();
    }
  }
}
