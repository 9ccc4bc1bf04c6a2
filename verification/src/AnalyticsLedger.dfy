/**
 The analytics migrator keeps an append-only log instead of a table of applied versions. A version
 counts as applied when its newest entry says "up"; the log refines the set of applied versions.
 */
module AnalyticsLedger {
  import opened Migrations

  datatype Direction = Up | Down

  datatype Entry = Entry(version: nat, direction: Direction, appliedAt: int)

  /** The move an entry records. */
  function MoveOf(e: Entry): Move {
    if e.direction == Up then Apply(e.version) else Rollback(e.version)
  }

  function MovesOf(log: seq<Entry>): (moves: seq<Move>)
    ensures |moves| == |log|
  {
    if log == [] then [] else MovesOf(log[..|log| - 1]) + [MoveOf(log[|log| - 1])]
  }

  /** The versions the recorded moves leave applied. */
  function AppliedBy(log: seq<Entry>): set<nat> {
    Replay(MovesOf(log))
  }

  lemma AppliedStep(log: seq<Entry>, e: Entry)
    ensures MovesOf(log + [e]) == MovesOf(log) + [MoveOf(e)]
    ensures AppliedBy(log + [e]) == Effect(AppliedBy(log), MoveOf(e))
  {
    assert (log + [e])[..|log|] == log;
    assert (MovesOf(log) + [MoveOf(e)])[..|log|] == MovesOf(log);
  }

  /** An entry of the version that none of its entries is newer than. */
  ghost predicate IsNewest(log: seq<Entry>, i: nat) {
    i < |log| && forall j :: 0 <= j < |log| && log[j].version == log[i].version ==> log[j].appliedAt <= log[i].appliedAt
  }

  /** argMax(direction, applied_at) may answer d for the version. */
  ghost predicate MayAnswer(log: seq<Entry>, version: nat, d: Direction) {
    exists i :: 0 <= i < |log| && log[i].version == version && log[i].direction == d && IsNewest(log, i)
  }

  predicate Ordered(log: seq<Entry>) {
    forall i, j :: 0 <= i < j < |log| ==> log[i].appliedAt <= log[j].appliedAt
  }

  /** Two entries of one version never carry the same time. */
  predicate DistinctTimes(log: seq<Entry>) {
    forall i, j :: 0 <= i < j < |log| && log[i].version == log[j].version ==> log[i].appliedAt != log[j].appliedAt
  }

  /** `clock` gives the time of the k-th entry; every reading from now on is later than every entry. */
  ghost predicate ClockAhead(log: seq<Entry>, clock: nat -> int) {
    && (forall i: nat, k: nat :: i < |log| <= k ==> log[i].appliedAt < clock(k))
    && forall i: nat, k: nat :: i < k ==> clock(i) < clock(k)
  }

  lemma ClockStaysAhead(log: seq<Entry>, clock: nat -> int, e: Entry)
    requires ClockAhead(log, clock) && e.appliedAt == clock(|log|)
    ensures ClockAhead(log + [e], clock)
    ensures forall i :: 0 <= i < |log| ==> log[i].appliedAt < e.appliedAt
  {
  }

  lemma LaterEntryKeepsOrder(log: seq<Entry>, e: Entry)
    requires Ordered(log) && DistinctTimes(log)
    requires forall i :: 0 <= i < |log| ==> log[i].appliedAt < e.appliedAt
    ensures Ordered(log + [e]) && DistinctTimes(log + [e])
  {
  }

  ghost predicate IsLast(log: seq<Entry>, i: nat) {
    i < |log| && forall j :: i < j < |log| ==> log[j].version != log[i].version
  }

  lemma LastEntryExists(log: seq<Entry>, version: nat) returns (i: nat)
    requires exists j :: 0 <= j < |log| && log[j].version == version
    ensures IsLast(log, i) && log[i].version == version
  {
    i := |log| - 1;
    while log[i].version != version
      invariant i < |log| && forall j :: i < j < |log| ==> log[j].version != version
      decreases i
    {
      if i == 0 {
        assert false;
      }
      i := i - 1;
    }
  }

  /** What the log leaves of one version is decided by the version's last entry. */
  lemma {:induction false} LastEntryDecides(log: seq<Entry>, i: nat)
    requires IsLast(log, i)
    ensures log[i].version in AppliedBy(log) <==> log[i].direction == Up
  {
    var rest := log[..|log| - 1];
    assert log == rest + [log[|log| - 1]];
    AppliedStep(rest, log[|log| - 1]);
    if i < |rest| {
      assert forall j :: 0 <= j < |rest| ==> rest[j] == log[j];
      LastEntryDecides(rest, i);
    }
  }

  lemma {:induction false} NeverMentioned(log: seq<Entry>, version: nat)
    requires forall j :: 0 <= j < |log| ==> log[j].version != version
    ensures version !in AppliedBy(log)
  {
    if log == [] {
    } else {
      var rest := log[..|log| - 1];
      assert log == rest + [log[|log| - 1]];
      AppliedStep(rest, log[|log| - 1]);
      NeverMentioned(rest, version);
    }
  }

  /** Reading the log back gives the set that the moves produce. */
  lemma LogRefinesSet(log: seq<Entry>, version: nat)
    requires Ordered(log) && DistinctTimes(log)
    ensures version in AppliedBy(log) <==> MayAnswer(log, version, Up)
    ensures MayAnswer(log, version, Up) ==> !MayAnswer(log, version, Down)
  {
    if exists j :: 0 <= j < |log| && log[j].version == version {
      var i := LastEntryExists(log, version);
      LastEntryDecides(log, i);
      assert IsNewest(log, i);
      forall k | 0 <= k < |log| && log[k].version == version && IsNewest(log, k)
        ensures k == i
      {
        assert log[i].appliedAt <= log[k].appliedAt;
      }
    } else {
      NeverMentioned(log, version);
    }
  }

  /** With a clock that may repeat a reading, the answer is certain exactly when the last entry of the
      version does not share its time with an entry of the other direction. */
  lemma AnswerIsCertain(log: seq<Entry>, i: nat)
    requires Ordered(log) && IsLast(log, i)
    ensures (forall d :: MayAnswer(log, log[i].version, d) ==> d == log[i].direction)
            <==> (forall j :: 0 <= j < |log| && log[j].version == log[i].version && log[j].appliedAt == log[i].appliedAt ==>
                    log[j].direction == log[i].direction)
  {
    assert IsNewest(log, i);
    forall j | 0 <= j < |log| && log[j].version == log[i].version && log[j].appliedAt == log[i].appliedAt
      ensures MayAnswer(log, log[i].version, log[j].direction)
    {
      assert IsNewest(log, j);
    }
    forall d | MayAnswer(log, log[i].version, d)
      ensures exists j :: 0 <= j < |log| && log[j].version == log[i].version
                          && log[j].appliedAt == log[i].appliedAt && log[j].direction == d
    {
      var j :| 0 <= j < |log| && log[j].version == log[i].version && log[j].direction == d && IsNewest(log, j);
      assert log[i].appliedAt <= log[j].appliedAt;
    }
  }

  /** For each version of the log an entry with the greatest time. */
  ghost predicate NewestOf(newest: map<nat, Entry>, log: seq<Entry>) {
    && (forall v :: v in newest ==> newest[v] in log && newest[v].version == v)
    && (forall i :: 0 <= i < |log| ==> log[i].version in newest && log[i].appliedAt <= newest[log[i].version].appliedAt)
  }

  method NewestEntries(log: seq<Entry>) returns (newest: map<nat, Entry>)
    ensures NewestOf(newest, log)
  {
    newest := map[];
    for n := 0 to |log|
      invariant NewestOf(newest, log[..n])
    {
      var e := log[n];
      assert log[..n + 1] == log[..n] + [e];
      if e.version !in newest || newest[e.version].appliedAt < e.appliedAt {
        newest := newest[e.version := e];
      }
    }
    assert log[..|log|] == log;
  }

  lemma NewestDecides(log: seq<Entry>, newest: map<nat, Entry>, v: nat)
    requires Ordered(log) && DistinctTimes(log) && NewestOf(newest, log)
    ensures v in newest && newest[v].direction == Up <==> v in AppliedBy(log)
  {
    LogRefinesSet(log, v);
    if v in newest {
      var i :| 0 <= i < |log| && log[i] == newest[v];
      assert IsNewest(log, i);
      assert MayAnswer(log, v, newest[v].direction);
    }
  }

  // How one migration ends: the statement and the log entry are separate.
  datatype Outcome = StatementFails | RecordFails | Recorded | RecordedButErrors

  predicate TakesEffect(o: Outcome) {
    o == Recorded || o == RecordedButErrors
  }

  class AnalyticsMigrator {
    const files: seq<File>
    const downs: set<nat>
    var log: seq<Entry>

    ghost predicate Valid()
      reads this
    {
      && DistinctVersions(files) && Ordered(log) && DistinctTimes(log) && Legal(MovesOf(log), files)
    }

    /** The versions the query reports as applied. */
    ghost function Applied(): set<nat>
      reads this
    {
      AppliedBy(log)
    }

    constructor (files: seq<File>, downs: set<nat>)
      requires DistinctVersions(files)
      ensures Valid() && this.files == files && this.downs == downs && Applied() == {}
    {
      this.files, this.downs, log := files, downs, [];
    }

    /** Appends one entry; the clock reads later than every entry before it. */
    method Record(version: nat, d: Direction, clock: nat -> int)
      requires Valid() && ClockAhead(log, clock)
      requires LegalMove(Applied(), files, if d == Up then Apply(version) else Rollback(version))
      modifies this
      ensures Valid() && ClockAhead(log, clock)
      ensures log == old(log) + [Entry(version, d, clock(|old(log)|))]
      ensures Applied() == if d == Up then old(Applied()) + {version} else old(Applied()) - {version}
    {
      var e := Entry(version, d, clock(|log|));
      ExtendLegal(MovesOf(log), files, MoveOf(e));
      AppliedStep(log, e);
      ClockStaysAhead(log, clock, e);
      LaterEntryKeepsOrder(log, e);
      log := log + [e];
    }

    /** Reads the applied versions off the log: for each version the direction with the greatest time. */
    method AppliedVersions() returns (applied: set<nat>)
      requires Valid()
      ensures applied == Applied()
    {
      var newest := NewestEntries(log);
      applied := set v | v in newest && newest[v].direction == Up;
      forall v: nat {
        NewestDecides(log, newest, v);
      }
    }

    lemma AppliedPrefix()
      requires Valid()
      ensures IsPrefix(Applied(), files)
    {
      AppliedIsPrefix(MovesOf(log), files);
    }

    /** The statement and the entry for the first pending file. */
    method ApplyFirst(f: File, o: Outcome, clock: nat -> int, ghost rest: seq<File>) returns (done: bool)
      requires Valid() && rest != [] && rest[0] == f && IsPending(rest, files, Applied())
      requires ClockAhead(log, clock)
      modifies this
      ensures Valid() && ClockAhead(log, clock) && (done <==> o == Recorded)
      ensures old(log) <= log
      ensures Applied() == if TakesEffect(o) then old(Applied()) + {f.version} else old(Applied())
      ensures done ==> IsPending(rest[1..], files, Applied())
    {
      FirstPendingIsNext(rest, files, Applied());
      if TakesEffect(o) {
        Record(f.version, Up, clock);
      }
      done := o == Recorded;
    }

    /** Applies pending versions in order until one step fails. */
    method MigrateUp(outcomes: nat -> Outcome, clock: nat -> int) returns (ok: bool, ghost pending: seq<File>, ghost n: nat)
      requires Valid() && ClockAhead(log, clock)
      modifies this
      ensures Valid() && IsPrefix(Applied(), files) && old(log) <= log
      ensures IsPending(pending, files, old(Applied())) && n <= |pending| && forall i: nat :: i < n ==> outcomes(i) == Recorded
      ensures ok ==> n == |pending| && Applied() == Versions(files)
      ensures !ok ==> n < |pending| && outcomes(n) != Recorded
                      && Applied() == old(Applied()) + Versions(pending[..if TakesEffect(outcomes(n)) then n + 1 else n])
    {
      var applied := AppliedVersions();
      var todo := LoadMigrations(files, applied);
      pending := todo;
      ok, n := ApplyAll(todo, outcomes, clock);
      AppliedPrefix();
      if ok {
        assert todo[n..] == [] && todo[..n] == todo;
        NothingPending(files, Applied());
      }
    }

    /** The loop over the pending files; n is the number recorded without an error. */
    method ApplyAll(todo: seq<File>, outcomes: nat -> Outcome, clock: nat -> int) returns (ok: bool, ghost n: nat)
      requires Valid() && ClockAhead(log, clock) && IsPending(todo, files, Applied())
      modifies this
      ensures Valid() && old(log) <= log
      ensures n <= |todo| && forall i: nat :: i < n ==> outcomes(i) == Recorded
      ensures ok ==> n == |todo| && IsPending(todo[n..], files, Applied())
      ensures !ok ==> n < |todo| && outcomes(n) != Recorded
                      && Applied() == old(Applied()) + Versions(todo[..if TakesEffect(outcomes(n)) then n + 1 else n])
    {
      ghost var before := Applied();
      n := 0;
      for k := 0 to |todo|
        invariant n == k && Valid() && ClockAhead(log, clock) && IsPending(todo[k..], files, Applied())
        invariant old(log) <= log
        invariant Applied() == before + Versions(todo[..k])
        invariant forall i: nat :: i < k ==> outcomes(i) == Recorded
      {
        VersionsOfLonger(todo, k);
        assert before + Versions(todo[..k + 1]) == before + Versions(todo[..k]) + {todo[k].version};
        var done := ApplyNth(todo, k, outcomes(k), clock);
        if !done {
          return false, n;
        }
        n := n + 1;
      }
      ok := true;
    }

    method ApplyNth(todo: seq<File>, k: nat, o: Outcome, clock: nat -> int) returns (done: bool)
      requires Valid() && k < |todo| && ClockAhead(log, clock) && IsPending(todo[k..], files, Applied())
      modifies this
      ensures Valid() && ClockAhead(log, clock) && (done <==> o == Recorded)
      ensures old(log) <= log
      ensures Applied() == if TakesEffect(o) then old(Applied()) + {todo[k].version} else old(Applied())
      ensures done ==> IsPending(todo[k + 1..], files, Applied())
    {
      assert todo[k..][1..] == todo[k + 1..];
      done := ApplyFirst(todo[k], o, clock, todo[k..]);
    }

    /** Rolls the last applied version back, if its down file exists. */
    method MigrateDown(o: Outcome, clock: nat -> int) returns (ok: bool)
      requires Valid() && ClockAhead(log, clock)
      modifies this
      ensures Valid() && IsPrefix(Applied(), files) && old(log) <= log
      ensures old(Applied()) == {} ==> ok && log == old(log)
      ensures old(Applied()) != {} ==>
                exists v :: IsGreatest(old(Applied()), v)
                            && Applied() == (if v in downs && TakesEffect(o) then old(Applied()) - {v} else old(Applied()))
                            && (ok <==> v in downs && o == Recorded)
    {
      AppliedPrefix();
      var applied := AppliedVersions();
      if applied == {} {
        return true;
      }
      var last := Greatest(applied);
      if last !in downs {
        return false;
      }
      if TakesEffect(o) {
        Record(last, Down, clock);
      }
      ok := o == Recorded;
      AppliedPrefix();
    }
  }

  /** Up and down of version 1 within one tick: the log cannot say whether it is applied. */
  lemma SameTickIsAmbiguous()
    ensures var log := [Entry(1, Up, 5), Entry(1, Down, 5)];
            MayAnswer(log, 1, Up) && MayAnswer(log, 1, Down)
  {
    var log := [Entry(1, Up, 5), Entry(1, Down, 5)];
    assert IsNewest(log, 0) && IsNewest(log, 1);
    assert log[0].direction == Up && log[1].direction == Down;
  }
}
