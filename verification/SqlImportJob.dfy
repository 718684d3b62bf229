/**
 The same life of an import job over the SQL store, where every call works on a copy it has read: what it changes is
 there for the next read only if it was saved.

 A row reads back as it was written; `JobCodec` says when. Records are written straight to their own table.
 */
module SqlImportJobs {
  import opened Wrappers
  import opened ImportModels
  import opened DuplicateDetection
  import opened DuplicateResolution
  import opened ImportJobs

  /** What one call holds of a job: the fields that are saved with it. */
  datatype Copy = Copy(status: Status, batch: Option<seq<Customer>>, duplicates: seq<Duplicate>)

  /** The apply inside a run reads the row last saved, and that was before detection. */
  function SqlAfterRun(job: Job, source: Source, autoApply: bool): Job {
    match source
    case ExtractRaises => job.(status := Failed)
    case ValidateRaises(customers) => job.(status := Failed, batch := Some(customers))
    case Delivers(customers, found, breaks) =>
      var saved := job.(batch := Some(customers));
      if HasOpen(found) && !autoApply then saved.(status := AwaitingResolution, duplicates := found)
      else if breaks then saved.(status := Failed, duplicates := if autoApply then AutoAll(found) else found)
      else AfterApply(saved, false)
  }

  /** The apply after posted decisions reads the row without them. */
  function SqlAfterResolve(job: Job, rs: seq<Resolution>, applyAfter: bool, breaks: bool): (Job, Option<JobError>) {
    var (dups, fine) := Resolved(job.duplicates, rs);
    if !fine then (job, Some(BadAction))
    else if HasOpen(dups) then (job.(duplicates := dups, status := AwaitingResolution), None)
    else if !applyAfter then (job.(duplicates := dups), None)
    else if job.batch.None? then (job, Some(NoBatch))
    else (AfterApply(job, breaks), if breaks then Some(WriteRaised) else None)
  }

  class SqlImportJob {
    var status: Status
    var batch: Option<seq<Customer>>
    var duplicates: seq<Duplicate>
    var applied: seq<seq<Customer>>

    ghost function State(): Job
      reads this
    {
      Job(status, batch, duplicates, applied)
    }

    constructor ()
      ensures State() == NewJob
    {
      status, batch, duplicates, applied := Pending, None, [], [];
    }

    method Load() returns (job: Copy)
      ensures job == Copy(status, batch, duplicates)
    {
      job := Copy(status, batch, duplicates);
    }

    method Save(job: Copy)
      modifies this
      ensures State() == Job(job.status, job.batch, job.duplicates, old(applied))
    {
      status, batch, duplicates := job.status, job.batch, job.duplicates;
    }

    method Apply(breaks: bool) returns (error: Option<JobError>)
      requires WellReferenced(State())
      modifies this
      ensures old(batch).None? ==> error == Some(NoBatch) && State() == old(State())
      ensures old(batch).Some? ==> error == (if breaks then Some(WriteRaised) else None)
      ensures old(batch).Some? ==> State() == AfterApply(old(State()), breaks)
    {
      var job := Load();
      if job.batch.None? { return Some(NoBatch); }
      job := job.(status := Applying);
      Save(job);
      if breaks { return Some(WriteRaised); }
      var kept := ApplyToCustomers(job.batch.value, job.duplicates);
      assert kept == KeptRows(job.batch.value, job.duplicates);
      applied := applied + [kept];
      Save(job.(status := Completed));
      error := None;
    }

    method Run(source: Source, autoApply: bool)
      requires source.Delivers? ==> Distinct(Refs(source.customers))
      modifies this
      ensures State() == SqlAfterRun(old(State()), source, autoApply)
    {
      var job := Load();
      job := job.(status := Parsing);
      Save(job);
      if source.ExtractRaises? { Save(job.(status := Failed)); return; }
      job := job.(status := Normalizing);
      Save(job);
      job := job.(batch := Some(source.customers), status := Validating);
      Save(job);
      if source.ValidateRaises? { Save(job.(status := Failed)); return; }
      job := job.(duplicates := source.found);
      var pending := AnyOpen(job.duplicates);
      if pending && !autoApply { Save(job.(status := AwaitingResolution)); return; }
      if autoApply {
        var decided := AutoResolve(job.duplicates);
        assert decided == AutoAll(source.found);
        job := job.(duplicates := decided);
      }
      var error := Apply(source.breaks);
      if error.Some? { Save(job.(status := Failed)); }
    }

    method ResolveDuplicates(rs: seq<Resolution>, applyAfter: bool, breaks: bool) returns (error: Option<JobError>)
      requires WellReferenced(State())
      modifies this
      ensures (State(), error) == SqlAfterResolve(old(State()), rs, applyAfter, breaks)
    {
      var job := Load();
      var decided, fine := PostDecisions(job.duplicates, rs);
      if !fine { return Some(BadAction); }
      job := job.(duplicates := decided);
      var pending := AnyOpen(job.duplicates);
      if pending { Save(job.(status := AwaitingResolution)); return None; }
      if applyAfter {
        error := Apply(breaks);
      } else {
        Save(job);
        error := None;
      }
    }
  }

  // ---------------------------------------------------------------- what one call leaves

  /**
   A run ends in the status it ends in over the in-memory store, but what it detected is in the row afterwards only if
   it waits for resolution or its writing raised; one that completes writes under the candidates of before.
   */
  lemma SqlRunEnds(job: Job, source: Source, autoApply: bool)
    ensures var after := SqlAfterRun(job, source, autoApply);
            var open := source.Delivers? && exists k ::
                          0 <= k < |source.found| && !source.found[k].resolved && source.found[k].confidence >= 70;
            && after.status == AfterRun(job, source, autoApply).status
            && after.batch == (if source.ExtractRaises? then job.batch else Some(source.customers))
            && after.duplicates ==
                 (if source.Delivers? && open && !autoApply then source.found
                  else if source.Delivers? && source.breaks then AfterRun(job, source, autoApply).duplicates
                  else job.duplicates)
            && after.applied ==
                 if after.status.Completed? then job.applied + [KeptRows(source.customers, job.duplicates)]
                 else job.applied
  {
    if source.Delivers? {
      assert forall k :: 0 <= k < |source.found| ==>
          (Open(source.found[k]) <==> !source.found[k].resolved && source.found[k].confidence >= 70);
    }
  }

  /**
   A resolve call ends in the status and with the error it ends with over the in-memory store, after an unknown action
   or an apply it does not leave its decisions in the row, and one that applies writes under the candidates of before.
   */
  lemma SqlResolveEnds(job: Job, rs: seq<Resolution>, applyAfter: bool, breaks: bool)
    ensures var (after, error) := SqlAfterResolve(job, rs, applyAfter, breaks);
            var (memory, raised) := AfterResolve(job, rs, applyAfter, breaks);
            && after.status == memory.status && error == raised && after.batch == job.batch
            && after.duplicates ==
                 (if error == None && (!applyAfter || HasOpen(memory.duplicates))
                  then memory.duplicates else job.duplicates)
            && after.applied ==
                 if memory.applied == job.applied then job.applied
                 else job.applied + [KeptRows(job.batch.value, job.duplicates)]
  {
  }

  // ---------------------------------------------------------------- two lists of candidates on one batch

  /** Do the candidates leave out the customer row referred to by `r`? */
  ghost predicate LeavesOutRow(dups: seq<Duplicate>, r: string) {
    exists d :: d in dups && d.kind.CustomerKind? && d.incoming == r && LeavesOut(ActionOf(d))
  }

  /** The positions of the customer rows an apply writes. */
  function KeptPositions(customers: seq<Customer>, dups: seq<Duplicate>): seq<nat> {
    KeptBelow(Refs(customers), LeftOut(dups, CustomerKind), |customers|)
  }

  lemma {:induction false} SameSkipSameRows(refs: seq<string>, one: set<string>, other: set<string>, n: nat)
    requires n <= |refs| && forall i :: 0 <= i < n ==> (refs[i] in one <==> refs[i] in other)
    ensures KeptBelow(refs, one, n) == KeptBelow(refs, other, n)
  {
    if n > 0 { SameSkipSameRows(refs, one, other, n - 1); }
  }

  lemma SameRowsSameSkip(refs: seq<string>, one: set<string>, other: set<string>)
    requires KeptBelow(refs, one, |refs|) == KeptBelow(refs, other, |refs|)
    ensures forall i :: 0 <= i < |refs| ==> (refs[i] in one <==> refs[i] in other)
  {
    KeptAre(refs, one, |refs|);
    KeptAre(refs, other, |refs|);
    forall i | 0 <= i < |refs|
      ensures refs[i] in one <==> refs[i] in other
    {
      assert i in KeptBelow(refs, one, |refs|) <==> refs[i] !in one;
      assert i in KeptBelow(refs, other, |refs|) <==> refs[i] !in other;
    }
  }

  lemma SamePositionsExactlyWhen(customers: seq<Customer>, one: seq<Duplicate>, other: seq<Duplicate>)
    ensures KeptPositions(customers, one) == KeptPositions(customers, other)
            <==> forall r :: r in Refs(customers) ==> (LeavesOutRow(one, r) <==> LeavesOutRow(other, r))
  {
    var refs, skip, skip' := Refs(customers), LeftOut(one, CustomerKind), LeftOut(other, CustomerKind);
    assert forall r :: r in skip <==> LeavesOutRow(one, r);
    assert forall r :: r in skip' <==> LeavesOutRow(other, r);
    assert forall i :: 0 <= i < |refs| ==> refs[i] in refs;
    if KeptPositions(customers, one) == KeptPositions(customers, other) { SameRowsSameSkip(refs, skip, skip'); }
    if forall i :: 0 <= i < |refs| ==> (refs[i] in skip <==> refs[i] in skip') {
      SameSkipSameRows(refs, skip, skip', |refs|);
    }
  }

  predicate AllDifferent(customers: seq<Customer>) {
    forall i, j :: 0 <= i < j < |customers| ==> customers[i] != customers[j]
  }

  /** Of rows that all differ, candidates that point forward write the same rows exactly when they keep the same. */
  lemma SameRowsExactlyWhen(customers: seq<Customer>, one: seq<Duplicate>, other: seq<Duplicate>)
    requires AllDifferent(customers) && PointForward(customers, one) && PointForward(customers, other)
    ensures KeptRows(customers, one) == KeptRows(customers, other)
            <==> forall r :: r in Refs(customers) ==> (LeavesOutRow(one, r) <==> LeavesOutRow(other, r))
  {
    hide LeavesOutRow;
    hide PointForward;
    SamePositionsExactlyWhen(customers, one, other);
    ForwardKeepsRows(customers, one);
    ForwardKeepsRows(customers, other);
    SameRowsSamePositions(customers, KeptPositions(customers, one), KeptPositions(customers, other),
                          KeptRows(customers, one), KeptRows(customers, other));
  }

  lemma SameRowsSamePositions(customers: seq<Customer>, ks: seq<nat>, ls: seq<nat>, one: seq<Customer>,
      other: seq<Customer>)
    requires AllDifferent(customers) && |one| == |ks| && |other| == |ls|
    requires forall x :: 0 <= x < |ks| ==> ks[x] < |customers| && one[x] == customers[ks[x]]
    requires forall x :: 0 <= x < |ls| ==> ls[x] < |customers| && other[x] == customers[ls[x]]
    ensures one == other <==> ks == ls
  {
    if one == other {
      forall x | 0 <= x < |ks|
        ensures ks[x] == ls[x]
      {
        assert one[x] == other[x];
      }
    }
  }

  lemma {:induction false} SomethingIsMissing(refs: seq<string>, skip: set<string>, n: nat, i: nat)
    requires n <= |refs| && i < n && refs[i] in skip
    ensures |KeptBelow(refs, skip, n)| < n
  {
    if i < n - 1 {
      SomethingIsMissing(refs, skip, n - 1, i);
    } else {
      KeptAtMost(refs, skip, n - 1);
    }
  }

  lemma {:induction false} KeptAtMost(refs: seq<string>, skip: set<string>, n: nat)
    requires n <= |refs|
    ensures |KeptBelow(refs, skip, n)| <= n
  {
    if n > 0 { KeptAtMost(refs, skip, n - 1); }
  }

  /** An apply writes its whole batch exactly when the candidates leave out no row of it. */
  lemma AllRowsWrittenExactlyWhen(customers: seq<Customer>, dups: seq<Duplicate>)
    ensures KeptRows(customers, dups) == customers
            <==> forall r :: r in Refs(customers) ==> !LeavesOutRow(dups, r)
  {
    var refs, skip := Refs(customers), LeftOut(dups, CustomerKind);
    assert forall r :: r in skip <==> LeavesOutRow(dups, r);
    if i :| 0 <= i < |refs| && refs[i] in skip {
      assert refs[i] in refs;
      SomethingIsMissing(refs, skip, |refs|, i);
    } else {
      NoRowLeftOut(dups, CustomerKind, customers, refs, MergeCustomer);
    }
  }

  // ---------------------------------------------------------------- automatic runs

  /**
   A run that applies writes its whole batch exactly when no candidate that was in the row before it leaves out a row
   of the batch; what the run itself detects does not matter.
   */
  lemma RunWritesAllExactlyWhen(job: Job, customers: seq<Customer>, found: seq<Duplicate>, autoApply: bool)
    requires autoApply || !HasOpen(found)
    ensures SqlAfterRun(job, Delivers(customers, found, false), autoApply).applied == job.applied + [customers]
            <==> forall r :: r in Refs(customers) ==> !LeavesOutRow(job.duplicates, r)
  {
    AllRowsWrittenExactlyWhen(customers, job.duplicates);
    LastIsLast(job.applied, KeptRows(customers, job.duplicates), customers);
  }

  lemma LastIsLast<T>(front: seq<T>, one: T, other: T)
    ensures front + [one] == front + [other] <==> one == other
  {
    assert (front + [one])[|front|] == one && (front + [other])[|front|] == other;
  }

  /** So on a row without candidates it drops no row. */
  lemma FreshRowDropsNothing(job: Job, customers: seq<Customer>, found: seq<Duplicate>, autoApply: bool)
    requires job.duplicates == [] && (autoApply || !HasOpen(found))
    ensures SqlAfterRun(job, Delivers(customers, found, false), autoApply) ==
            Job(Completed, Some(customers), [], job.applied + [customers])
  {
    RunWritesAllExactlyWhen(job, customers, found, autoApply);
  }

  function SqlRuns(sources: seq<Source>): Job {
    if sources == [] then NewJob
    else SqlAfterRun(SqlRuns(sources[..|sources| - 1]), sources[|sources| - 1], true)
  }

  /** The batches a list of runs delivers. */
  function Delivered(sources: seq<Source>): seq<seq<Customer>> {
    if sources == [] then []
    else
      var last := sources[|sources| - 1];
      Delivered(sources[..|sources| - 1]) + if last.Delivers? then [last.customers] else []
  }

  /** What the last run whose writing raised has detected. */
  function LastSaved(sources: seq<Source>): seq<Duplicate> {
    if sources == [] then []
    else
      var last := sources[|sources| - 1];
      if last.Delivers? && last.breaks then last.found else LastSaved(sources[..|sources| - 1])
  }

  lemma {:induction false} RunsSaveWhenTheyRaise(sources: seq<Source>)
    ensures SqlRuns(sources).duplicates == AutoAll(LastSaved(sources))
  {
    if sources != [] { RunsSaveWhenTheyRaise(sources[..|sources| - 1]); }
  }

  predicate OpenCustomer(d: Duplicate) {
    d.kind.CustomerKind? && Open(d)
  }

  /** Some open candidate about a customer has `r` for its incoming row. */
  ghost predicate OpenFor(found: seq<Duplicate>, r: string) {
    exists k :: 0 <= k < |found| && OpenCustomer(found[k]) && found[k].incoming == r
  }

  /** As detection leaves candidates: undecided, to be merged. */
  ghost predicate AllDetected(found: seq<Duplicate>) {
    forall k :: 0 <= k < |found| ==> Undecided(found[k]) && found[k].suggested.MergeRows?
  }

  lemma AutoLeavesOutOpen(found: seq<Duplicate>, r: string)
    requires AllDetected(found)
    ensures LeavesOutRow(AutoAll(found), r) <==> OpenFor(found, r)
  {
    var decided := AutoAll(found);
    if LeavesOutRow(decided, r) {
      var d :| d in decided && d.kind.CustomerKind? && d.incoming == r && LeavesOut(ActionOf(d));
      var k :| 0 <= k < |decided| && decided[k] == d;
      assert OpenCustomer(found[k]) && found[k].incoming == r;
    }
    if k :| 0 <= k < |found| && OpenCustomer(found[k]) && found[k].incoming == r {
      assert decided[k] in decided && LeavesOut(ActionOf(decided[k]));
    }
  }

  /**
   After any automatic runs, one more that raises nothing writes its whole batch exactly when no open candidate of the
   last run whose writing raised is about a row of this batch.
   */
  lemma AutomaticRunWritesAllExactlyWhen(sources: seq<Source>, customers: seq<Customer>, found: seq<Duplicate>)
    requires forall source :: source in sources && source.Delivers? ==> AllDetected(source.found)
    ensures SqlRuns(sources + [Delivers(customers, found, false)]).applied == SqlRuns(sources).applied + [customers]
            <==> forall r :: r in Refs(customers) ==> !OpenFor(LastSaved(sources), r)
  {
    var last := Delivers(customers, found, false);
    assert (sources + [last])[..|sources|] == sources;
    RunWritesAllExactlyWhen(SqlRuns(sources), customers, found, true);
    RunsSaveWhenTheyRaise(sources);
    SavedAreDetected(sources);
    forall r
      ensures LeavesOutRow(SqlRuns(sources).duplicates, r) <==> OpenFor(LastSaved(sources), r)
    {
      AutoLeavesOutOpen(LastSaved(sources), r);
    }
  }

  lemma {:induction false} SavedAreDetected(sources: seq<Source>)
    requires forall source :: source in sources && source.Delivers? ==> AllDetected(source.found)
    ensures AllDetected(LastSaved(sources))
  {
    if sources != [] {
      var front, last := sources[..|sources| - 1], sources[|sources| - 1];
      assert last in sources && forall source :: source in front ==> source in sources;
      SavedAreDetected(front);
    }
  }

  /** So automatic runs drop no row, however often repeated, as long as no write raises. */
  lemma {:induction false} AutomaticRunsDropNothing(sources: seq<Source>)
    requires forall source :: source in sources && source.Delivers? ==> !source.breaks
    ensures SqlRuns(sources).duplicates == [] && SqlRuns(sources).applied == Delivered(sources)
  {
    if sources != [] {
      var front, last := sources[..|sources| - 1], sources[|sources| - 1];
      assert last in sources && forall source :: source in front ==> source in sources;
      AutomaticRunsDropNothing(front);
      if last.Delivers? { FreshRowDropsNothing(SqlRuns(front), last.customers, last.found, true); }
    }
  }

  lemma NothingOpenNothingDecided(found: seq<Duplicate>)
    requires !HasOpen(found)
    ensures AutoAll(found) == found
  {
    assert forall k :: 0 <= k < |found| ==> !Open(found[k]);
  }

  /**
   A run that applies, on any row, keeps the positions it keeps in memory exactly when each row of the batch is left
   out by the candidates of before just when an open candidate of its own is about it. Of rows that all differ, where
   both lists point forward, that is also when the two stores write the same.
   */
  lemma StoresAgreeOnARunExactlyWhen(job: Job, customers: seq<Customer>, found: seq<Duplicate>, autoApply: bool)
    requires AllDetected(found) && (autoApply || !HasOpen(found))
    ensures var source := Delivers(customers, found, false);
            var sql, memory := SqlAfterRun(job, source, autoApply), AfterRun(job, source, autoApply);
            var same := forall r :: r in Refs(customers) ==> (LeavesOutRow(job.duplicates, r) <==> OpenFor(found, r));
            && (KeptPositions(customers, sql.duplicates) == KeptPositions(customers, memory.duplicates) <==> same)
            && (AllDifferent(customers) && PointForward(customers, job.duplicates) && PointForward(customers, found) ==>
                  (sql.applied == memory.applied <==> same))
  {
    hide LeavesOutRow;
    hide OpenFor;
    hide PointForward;
    hide KeptPositions;
    hide KeptRows;
    var before, decided := job.duplicates, AutoAll(found);
    if !autoApply { NothingOpenNothingDecided(found); }
    forall r
      ensures LeavesOutRow(decided, r) <==> OpenFor(found, r)
    {
      AutoLeavesOutOpen(found, r);
    }
    SamePositionsExactlyWhen(customers, before, decided);
    LastIsLast(job.applied, KeptRows(customers, before), KeptRows(customers, decided));
    if AllDifferent(customers) && PointForward(customers, before) && PointForward(customers, found) {
      DecidedPointForward(customers, found, decided);
      SameRowsExactlyWhen(customers, before, decided);
    }
  }

  /**
   On a new job's automatic run the two stores write the same rows exactly when detection found no open candidate
   about a customer.
   */
  lemma StoresAgreeOnAFirstRunExactlyWhen(customers: seq<Customer>, found: seq<Duplicate>)
    requires AllDetected(found)
    requires forall k :: 0 <= k < |found| && OpenCustomer(found[k]) ==> found[k].incoming in Refs(customers)
    ensures var source := Delivers(customers, found, false);
            SqlAfterRun(NewJob, source, true).applied == AfterRun(NewJob, source, true).applied
            <==> forall k :: 0 <= k < |found| ==> !OpenCustomer(found[k])
  {
    FreshRowDropsNothing(NewJob, customers, found, true);
    AllRowsWrittenExactlyWhen(customers, AutoAll(found));
    LastIsLast([], KeptRows(customers, AutoAll(found)), customers);
    forall r
      ensures LeavesOutRow(AutoAll(found), r) <==> OpenFor(found, r)
    {
      AutoLeavesOutOpen(found, r);
    }
    if k :| 0 <= k < |found| && OpenCustomer(found[k]) {
      assert OpenFor(found, found[k].incoming);
    }
  }

  /** Two rows with one phone: over SQL a first automatic run writes both, in memory it does not. */
  lemma TwoOfAKindAreBothWritten(a: Customer, b: Customer, norm: Norm)
    requires Truthy(a.phone) && a.phone == b.phone
    ensures var rows := [a, b];
            var source := Delivers(rows, [Candidate(rows, norm, 0, 1)], false);
            && SqlAfterRun(NewJob, source, true).applied == [rows]
            && AfterRun(NewJob, source, true).applied != [rows]
  {
    var rows := [a, b];
    var found := [Candidate(rows, norm, 0, 1)];
    assert Refs(rows)[0] == found[0].incoming;
    assert AllDetected(found) && OpenCustomer(found[0]);
    FreshRowDropsNothing(NewJob, rows, found, true);
    StoresAgreeOnAFirstRunExactlyWhen(rows, found);
  }

  /** The first of two rows is left out. */
  lemma FirstOfTwoIsLeftOut(a: Customer, b: Customer, d: Duplicate)
    requires Distinct(Refs([a, b]))
    requires d.kind.CustomerKind? && d.incoming == CustomerRef(a, 0) && LeavesOut(ActionOf(d))
    ensures KeptRows([a, b], [d]) == [b]
  {
    var rows, dups := [a, b], [d];
    var refs, skip := Refs(rows), LeftOut(dups, CustomerKind);
    assert refs[0] != refs[1] && d in dups;
    assert refs[0] in skip && refs[1] !in skip;
    assert KeptBelow(refs, skip, 1) == [] && KeptBelow(refs, skip, 2) == [1];
  }

  /**
   The same two rows again after a run that stopped for resolution, or after an automatic one whose writing raised:
   the candidate saved then drops a row of the automatic run now.
   */
  lemma SavedCandidatesDropARow(a: Customer, b: Customer, norm: Norm)
    requires Truthy(a.phone) && a.phone == b.phone && Distinct(Refs([a, b]))
    ensures var rows := [a, b];
            var found := [Candidate(rows, norm, 0, 1)];
            var source := Delivers(rows, found, false);
            && SqlAfterRun(SqlAfterRun(NewJob, source, false), source, true).applied == [[b]]
            && SqlRuns([Delivers(rows, found, true), source]).applied == [[b]]
  {
    var rows := [a, b];
    var found := [Candidate(rows, norm, 0, 1)];
    var source, raising := Delivers(rows, found, false), Delivers(rows, found, true);
    assert Open(found[0]);
    assert SqlAfterRun(NewJob, source, false) == Job(AwaitingResolution, Some(rows), found, []);
    FirstOfTwoIsLeftOut(a, b, found[0]);
    assert [raising, source][..1] == [raising] && [raising][..0] == [];
    assert SqlRuns([raising]) == Job(Failed, Some(rows), AutoAll(found), []) by { assert SqlRuns([]) == NewJob; }
    assert AutoAll(found) == [Auto(found[0])];
    FirstOfTwoIsLeftOut(a, b, Auto(found[0]));
  }

  // ---------------------------------------------------------------- posted decisions

  /** The decisions settle everything that was open, and all their actions are known. */
  predicate Settles(job: Job, rs: seq<Resolution>) {
    var (dups, fine) := Resolved(job.duplicates, rs);
    fine && !HasOpen(dups) && job.batch.Some?
  }

  /** Some candidate about row `r` leaves it out, by the last action posted for it or else by what it said before. */
  ghost predicate PostedLeavesOut(dups: seq<Duplicate>, rs: seq<Resolution>, r: string) {
    exists k :: 0 <= k < |dups| && dups[k].kind.CustomerKind? && dups[k].incoming == r
                && LeavesOut(OrElse(Posted(rs, k), ActionOf(dups[k])))
  }

  lemma ResolvedLeavesOut(dups: seq<Duplicate>, rs: seq<Resolution>, r: string)
    requires Resolved(dups, rs).1
    ensures LeavesOutRow(Resolved(dups, rs).0, r) <==> PostedLeavesOut(dups, rs, r)
  {
    var decided := Resolved(dups, rs).0;
    ResolvingOnlyResolves(dups, rs);
    forall k | 0 <= k < |dups|
      ensures ActionOf(decided[k]) == OrElse(Posted(rs, k), ActionOf(dups[k]))
    {
      LastPostedCounts(dups, rs, k);
    }
    if LeavesOutRow(decided, r) {
      var d :| d in decided && d.kind.CustomerKind? && d.incoming == r && LeavesOut(ActionOf(d));
      var k :| 0 <= k < |decided| && decided[k] == d;
      assert dups[k].incoming == r;
    }
    if PostedLeavesOut(dups, rs, r) {
      var k :| 0 <= k < |dups| && dups[k].kind.CustomerKind? && dups[k].incoming == r
          && LeavesOut(OrElse(Posted(rs, k), ActionOf(dups[k])));
      assert decided[k] in decided && decided[k].incoming == r;
    }
  }

  /** Does the call come to an apply that writes? */
  predicate Writes(job: Job, rs: seq<Resolution>, applyAfter: bool, breaks: bool) {
    Settles(job, rs) && applyAfter && !breaks
  }

  /**
   Posting decisions applies the same positions over both stores exactly when the call writes nothing, or each row of
   the batch is left out by the candidates as they stood just when it is left out with the last actions posted for
   them. Of rows that all differ, where the candidates point forward, that is also when the stores write the same.
   */
  lemma StoresAgreeOnDecisionsExactlyWhen(job: Job, rs: seq<Resolution>, applyAfter: bool, breaks: bool)
    ensures var sql := SqlAfterResolve(job, rs, applyAfter, breaks).0;
            var memory := AfterResolve(job, rs, applyAfter, breaks).0;
            if !Writes(job, rs, applyAfter, breaks) then sql.applied == memory.applied == job.applied
            else
              var customers, before := job.batch.value, job.duplicates;
              var same := forall r :: r in Refs(customers) ==>
                            (LeavesOutRow(before, r) <==> PostedLeavesOut(before, rs, r));
              && (KeptPositions(customers, sql.duplicates) == KeptPositions(customers, memory.duplicates) <==> same)
              && (AllDifferent(customers) && PointForward(customers, before) ==>
                    (sql.applied == memory.applied <==> same))
  {
    hide LeavesOutRow;
    hide PostedLeavesOut;
    hide PointForward;
    hide KeptPositions;
    hide KeptRows;
    if Writes(job, rs, applyAfter, breaks) {
      var customers, before, decided := job.batch.value, job.duplicates, Resolved(job.duplicates, rs).0;
      forall r
        ensures LeavesOutRow(decided, r) <==> PostedLeavesOut(before, rs, r)
      {
        ResolvedLeavesOut(before, rs, r);
      }
      SamePositionsExactlyWhen(customers, before, decided);
      LastIsLast(job.applied, KeptRows(customers, before), KeptRows(customers, decided));
      if AllDifferent(customers) && PointForward(customers, before) {
        assert Decided(before, decided) by { ResolvingOnlyResolves(before, rs); }
        DecidedPointForward(customers, before, decided);
        SameRowsExactlyWhen(customers, before, decided);
      }
    }
  }

  /** Some candidate about row `r` is strong enough to be acted on undecided. */
  ghost predicate StrongFor(dups: seq<Duplicate>, r: string) {
    exists k :: 0 <= k < |dups| && dups[k].kind.CustomerKind? && dups[k].incoming == r && dups[k].confidence >= 90
  }

  /** The last action posted for some candidate about row `r` leaves it out. */
  ghost predicate PostedFor(dups: seq<Duplicate>, rs: seq<Resolution>, r: string) {
    exists k :: 0 <= k < |dups| && dups[k].kind.CustomerKind? && dups[k].incoming == r && LeavesOut(Posted(rs, k))
  }

  /**
   The first decisions about what detection found, applied at once: the stores write the same rows exactly when the
   rows a posted action leaves out are those some candidate of confidence 0.9 or more is about.
   */
  lemma StoresAgreeOnFirstDecisionsExactlyWhen(
    job: Job, rs: seq<Resolution>, norm: Norm, records: seq<Record>, lower: Norm,
    batch: seq<Duplicate>, store: seq<Duplicate>)
    requires Settles(job, rs) && job.duplicates == batch + store
    requires var customers := job.batch.value;
             && Distinct(Refs(customers)) && FreshIds(records, Refs(customers)) && AllDifferent(customers)
             && ExactlyThePairs(customers, norm, batch) && ExactlyTheMatches(customers, records, lower, store)
    ensures SqlAfterResolve(job, rs, true, false).0.applied == AfterResolve(job, rs, true, false).0.applied
            <==> forall r :: r in Refs(job.batch.value) ==>
                   (StrongFor(job.duplicates, r) <==> PostedFor(job.duplicates, rs, r))
  {
    var customers, dups := job.batch.value, job.duplicates;
    DetectedPointForward(customers, norm, records, lower, batch, store);
    FoundAreFresh(customers, norm, records, lower, batch, store);
    StoresAgreeOnDecisionsExactlyWhen(job, rs, true, false);
    hide PointForward;
    hide ExactlyThePairs;
    hide ExactlyTheMatches;
    forall r
      ensures LeavesOutRow(dups, r) <==> StrongFor(dups, r)
      ensures PostedLeavesOut(dups, rs, r) <==> PostedFor(dups, rs, r)
    {
      FirstDecisionsAbout(job, rs, r);
    }
  }

  lemma FirstDecisionsAbout(job: Job, rs: seq<Resolution>, r: string)
    requires Settles(job, rs) && forall d :: d in job.duplicates ==> Fresh(d)
    ensures LeavesOutRow(job.duplicates, r) <==> StrongFor(job.duplicates, r)
    ensures PostedLeavesOut(job.duplicates, rs, r) <==> PostedFor(job.duplicates, rs, r)
  {
    var dups := job.duplicates;
    assert forall k :: 0 <= k < |dups| ==> dups[k] in dups;
    if LeavesOutRow(dups, r) {
      var d :| d in dups && d.kind.CustomerKind? && d.incoming == r && LeavesOut(ActionOf(d));
      var k :| 0 <= k < |dups| && dups[k] == d;
      assert dups[k].confidence >= 90;
    }
    forall k | 0 <= k < |dups|
      ensures OrElse(Posted(rs, k), ActionOf(dups[k])) == Posted(rs, k)
    {
      if dups[k].confidence >= 90 { OpenIsPosted(job, rs, k); }
    }
  }

  lemma OpenIsPosted(job: Job, rs: seq<Resolution>, k: nat)
    requires Settles(job, rs) && k < |job.duplicates| && Open(job.duplicates[k])
    ensures Posted(rs, k).Some?
  {
    assert !Open(Resolved(job.duplicates, rs).0[k]);
    ResolvingOnlyResolves(job.duplicates, rs);
    LastPostedCounts(job.duplicates, rs, k);
  }

  /** Posting SKIP for the one candidate about two rows, with an apply. */
  lemma SkippingTheFirst(a: Customer, b: Customer, d: Duplicate)
    requires Distinct(Refs([a, b]))
    requires d.kind.CustomerKind? && d.incoming == CustomerRef(a, 0) && Open(d) && ActionOf(d).None?
    ensures var job := Job(AwaitingResolution, Some([a, b]), [d], []);
            var rs := [Resolution(0, Asked(Skip))];
            && SqlAfterResolve(job, rs, true, false).0 == Job(Completed, Some([a, b]), [d], [[a, b]])
            && AfterResolve(job, rs, true, false).0.applied == [[b]]
  {
    hide KeptRows;
    hide CustomerRef;
    var dups, decided, rs := [d], [Resolve(d, Skip)], [Resolution(0, Asked(Skip))];
    assert dups[0 := decided[0]] == decided && rs[1..] == [] && Resolved(decided, []) == (decided, true);
    AllRowsWrittenExactlyWhen([a, b], dups);
    FirstOfTwoIsLeftOut(a, b, decided[0]);
  }

  /**
   Two rows with one name and neither phone nor e-mail, a run that stops for resolution, then SKIP posted with an
   apply: in memory the first row is left out, over SQL both are written and the job completes with an open candidate.
   */
  lemma SkipAppliedAtOnceIsLost(a: Customer, b: Customer, norm: Norm)
    requires a.name != "" && b.name != "" && norm(a.name) == norm(b.name) && Distinct(Refs([a, b]))
    requires !Truthy(a.phone) && !Truthy(b.phone) && !Truthy(a.email) && !Truthy(b.email)
    ensures var rows := [a, b];
            var source := Delivers(rows, [Candidate(rows, norm, 0, 1)], false);
            var rs := [Resolution(0, Asked(Skip))];
            var sql := SqlAfterResolve(SqlAfterRun(NewJob, source, false), rs, true, false).0;
            && sql.applied == [[a, b]] && sql.status.Completed? && HasOpen(sql.duplicates)
            && AfterResolve(AfterRun(NewJob, source, false), rs, true, false).0.applied == [[b]]
  {
    var rows := [a, b];
    var found := [Candidate(rows, norm, 0, 1)];
    assert found[0].confidence == 70 && Open(found[0]);
    SkippingTheFirst(a, b, found[0]);
  }

  /**
   Whatever two callers decide, applied at once it leaves the same row; the job completes with exactly the candidates
   open that were open before.
   */
  lemma DecisionsAppliedAtOnceAreLost(job: Job, rs: seq<Resolution>, others: seq<Resolution>)
    requires Settles(job, rs) && Settles(job, others)
    ensures var after := SqlAfterResolve(job, rs, true, false).0;
            && after == SqlAfterResolve(job, others, true, false).0
            && after.status.Completed? && (HasOpen(after.duplicates) <==> HasOpen(job.duplicates))
  {
  }

  /** Posted first and applied by a second call, decisions write what they write over the in-memory store. */
  lemma DecisionsAppliedLaterCount(job: Job, rs: seq<Resolution>)
    requires Settles(job, rs)
    ensures var saved := SqlAfterResolve(job, rs, false, false).0;
            SqlAfterResolve(saved, [], true, false).0 == AfterResolve(job, rs, true, false).0
  {
  }

  // ---------------------------------------------------------------- whose candidates are applied

  function SqlOperate(job: Job, op: Operation): Job {
    match op
    case Run(source, autoApply) => SqlAfterRun(job, source, autoApply)
    case ResolveDuplicates(rs, applyAfter, breaks) => SqlAfterResolve(job, rs, applyAfter, breaks).0
  }

  function SqlHistory(ops: seq<Operation>): Job {
    if ops == [] then NewJob else SqlOperate(SqlHistory(ops[..|ops| - 1]), ops[|ops| - 1])
  }

  /** A run that delivers the rows `customers` and candidates as detection finds them there. */
  ghost predicate RunsOn(op: Operation, customers: seq<Customer>) {
    && (op.Run? && !op.source.ExtractRaises? ==> op.source.customers == customers)
    && (op.Run? && op.source.Delivers? ==> PointForward(customers, op.source.found))
  }

  /** Every apply wrote rows of the batch, in order and unchanged. */
  ghost predicate WroteFrom(job: Job, customers: seq<Customer>) {
    && PointForward(customers, job.duplicates)
    && (job.batch.Some? ==> job.batch.value == customers)
    && forall rows :: rows in job.applied ==> KeptFrom(customers, rows)
  }

  lemma ApplyWritesFrom(job: Job, customers: seq<Customer>, breaks: bool)
    requires WroteFrom(job, customers) && job.batch.Some?
    ensures WroteFrom(AfterApply(job, breaks), customers)
  {
    hide KeptRows;
    hide PointForward;
    ForwardKeepsRows(customers, job.duplicates);
    assert KeptFrom(customers, KeptRows(customers, job.duplicates));
  }

  lemma RunWritesFrom(job: Job, customers: seq<Customer>, source: Source, autoApply: bool)
    requires WroteFrom(job, customers) && RunsOn(Run(source, autoApply), customers)
    ensures WroteFrom(SqlAfterRun(job, source, autoApply), customers)
  {
    hide PointForward;
    hide KeptFrom;
    hide AfterApply;
    if source.Delivers? {
      DecidedPointForward(customers, source.found, AutoAll(source.found));
      ApplyWritesFrom(job.(batch := Some(customers)), customers, false);
    }
  }

  lemma ResolveWritesFrom(job: Job, customers: seq<Customer>, rs: seq<Resolution>, applyAfter: bool, breaks: bool)
    requires WroteFrom(job, customers)
    ensures WroteFrom(SqlAfterResolve(job, rs, applyAfter, breaks).0, customers)
  {
    hide PointForward;
    hide KeptFrom;
    hide AfterApply;
    assert Decided(job.duplicates, Resolved(job.duplicates, rs).0) by { ResolvingOnlyResolves(job.duplicates, rs); }
    DecidedPointForward(customers, job.duplicates, Resolved(job.duplicates, rs).0);
    if job.batch.Some? { ApplyWritesFrom(job, customers, breaks); }
  }

  /**
   Over SQL candidates outlive the run that found them, so this takes more: as long as every run delivers the same
   rows, each apply writes some of them, in order and unchanged, whatever was decided.
   */
  lemma {:induction false} SqlHistoriesCombineNothing(ops: seq<Operation>, customers: seq<Customer>)
    requires forall op :: op in ops ==> RunsOn(op, customers)
    ensures WroteFrom(SqlHistory(ops), customers)
  {
    if ops != [] {
      var front, op := ops[..|ops| - 1], ops[|ops| - 1];
      assert op in ops && forall o :: o in front ==> o in ops;
      SqlHistoriesCombineNothing(front, customers);
      match op
      case Run(source, autoApply) => RunWritesFrom(SqlHistory(front), customers, source, autoApply);
      case ResolveDuplicates(rs, applyAfter, breaks) =>
        ResolveWritesFrom(SqlHistory(front), customers, rs, applyAfter, breaks);
    }
  }

  /** A run that stops for resolution and an automatic run on the same rows in the other order: one row is combined. */
  lemma ReorderedRunCombinesRows(a: Customer, b: Customer, norm: Norm)
    requires Truthy(a.phone) && a.phone == b.phone
    requires Truthy(a.rowRef) && Truthy(b.rowRef) && a.rowRef != b.rowRef
    ensures var stop := Run(Delivers([a, b], [Candidate([a, b], norm, 0, 1)], false), false);
            var again := Run(Delivers([b, a], [Candidate([b, a], norm, 0, 1)], false), true);
            SqlHistory([stop, again]).applied == [[MergeCustomer(b, a)]]
  {
    var found := [Candidate([a, b], norm, 0, 1)];
    var stop := Run(Delivers([a, b], found, false), false);
    var again := Run(Delivers([b, a], [Candidate([b, a], norm, 0, 1)], false), true);
    assert [stop, again][..1] == [stop] && [stop][..0] == [];
    assert Open(found[0]);
    assert SqlHistory([stop]) == Job(AwaitingResolution, Some([a, b]), found, []) by {
      assert SqlHistory([]) == NewJob;
    }
    SwappedRowsAreCombined(a, b, found[0]);
  }
}
