/**
 The life of an import job in the in-memory store, which hands out the job object itself: every
 change a call makes is there for the next call, also when the call raises.

 Extraction and validation are foreign; what they deliver is a parameter of the run.
 */
module ImportJobs {
  import opened Wrappers
  import opened ImportModels
  import opened DuplicateDetection
  import opened DuplicateResolution

  datatype Status =
    | Pending | Uploading | Parsing | Normalizing | Validating | AwaitingResolution | Applying | Completed | Failed

  /** What the connector and the validation engine do in one run, and whether writing then raises. */
  datatype Source =
    | ExtractRaises
    | ValidateRaises(customers: seq<Customer>)
    | Delivers(customers: seq<Customer>, found: seq<Duplicate>, breaks: bool)

  /** One posted resolution: which candidate, and the action asked for. */
  datatype Resolution = Resolution(candidate: int, action: Asked)
  datatype Asked = NoAction | Unknown | Asked(action: Action)

  datatype JobError = NoBatch | BadAction | WriteRaised

  /** `applied`: the customer rows written by each apply that came to its end, in order. */
  datatype Job = Job(status: Status, batch: Option<seq<Customer>>, duplicates: seq<Duplicate>,
      applied: seq<seq<Customer>>)

  const NewJob := Job(Pending, None, [], [])

  predicate Open(d: Duplicate) {
    !d.resolved && d.confidence >= 70
  }

  predicate HasOpen(dups: seq<Duplicate>) {
    exists k :: 0 <= k < |dups| && Open(dups[k])
  }

  /** The rows of one kind that decisions leave, each with what it absorbed. */
  function Leave<T>(rows: seq<T>, refs: seq<string>, dups: seq<Duplicate>, kind: EntityKind,
      combine: Combine<T>): seq<T>
    requires |rows| == |refs|
  {
    var skip := LeftOut(dups, kind);
    var ks := KeptBelow(refs, skip, |rows|);
    seq(|ks|, x requires 0 <= x < |ks| => Absorbed(rows, refs, skip, Targets(dups, kind), combine, ks[x], |rows|))
  }

  /** The customer rows an apply writes. */
  function KeptRows(customers: seq<Customer>, dups: seq<Duplicate>): seq<Customer> {
    Leave(customers, Refs(customers), dups, CustomerKind, MergeCustomer)
  }

  function Resolve(d: Duplicate, action: Action): Duplicate {
    d.(resolvedAction := Some(action), resolved := true)
  }

  /** The candidates after the posted resolutions; an unknown action stops there. */
  function Resolved(dups: seq<Duplicate>, rs: seq<Resolution>): (r: (seq<Duplicate>, bool))
    ensures |r.0| == |dups|
    decreases |rs|
  {
    if rs == [] then (dups, true)
    else if !(0 <= rs[0].candidate < |dups|) then Resolved(dups, rs[1..])
    else if rs[0].action.Unknown? then (dups, false)
    else
      var action := if rs[0].action.Asked? then rs[0].action.action else MergeRows;
      Resolved(dups[rs[0].candidate := Resolve(dups[rs[0].candidate], action)], rs[1..])
  }

  /** An apply that raises stops at APPLYING. */
  function AfterApply(job: Job, breaks: bool): Job
    requires job.batch.Some?
  {
    if breaks then job.(status := Applying)
    else job.(status := Completed, applied := job.applied + [KeptRows(job.batch.value, job.duplicates)])
  }

  function AutoAll(dups: seq<Duplicate>): seq<Duplicate> {
    seq(|dups|, k requires 0 <= k < |dups| => Auto(dups[k]))
  }

  function AfterRun(job: Job, source: Source, autoApply: bool): Job {
    match source
    case ExtractRaises => job.(status := Failed)
    case ValidateRaises(customers) => job.(status := Failed, batch := Some(customers))
    case Delivers(customers, found, breaks) =>
      var job := job.(batch := Some(customers), duplicates := found);
      if HasOpen(found) && !autoApply then job.(status := AwaitingResolution)
      else
        var job := AfterApply(job.(duplicates := if autoApply then AutoAll(found) else found), breaks);
        if breaks then job.(status := Failed) else job
  }

  function AfterResolve(job: Job, rs: seq<Resolution>, applyAfter: bool, breaks: bool): (Job, Option<JobError>) {
    var (dups, fine) := Resolved(job.duplicates, rs);
    var job := job.(duplicates := dups);
    if !fine then (job, Some(BadAction))
    else if HasOpen(dups) then (job.(status := AwaitingResolution), None)
    else if !applyAfter then (job, None)
    else if job.batch.None? then (job, Some(NoBatch))
    else (AfterApply(job, breaks), if breaks then Some(WriteRaised) else None)
  }

  /** The batch a job holds names every row once. */
  predicate WellReferenced(job: Job) {
    job.batch.Some? ==> Distinct(Refs(job.batch.value))
  }

  class ImportJob {
    var status: Status
    var batch: Option<seq<Customer>>
    var duplicates: seq<Duplicate>
    var applied: seq<seq<Customer>>

    ghost function State(): Job
      reads this
    {
      Job(status, batch, duplicates, applied)
    }

    constructor ()
      ensures State() == NewJob
    {
      status, batch, duplicates, applied := Pending, None, [], [];
    }

    method Apply(breaks: bool) returns (error: Option<JobError>)
      requires WellReferenced(State())
      modifies this
      ensures old(batch).None? ==> error == Some(NoBatch) && State() == old(State())
      ensures old(batch).Some? ==> error == (if breaks then Some(WriteRaised) else None)
      ensures old(batch).Some? ==> State() == AfterApply(old(State()), breaks)
    {
      if batch.None? { return Some(NoBatch); }
      status := Applying;
      if breaks { return Some(WriteRaised); }
      var kept := ApplyToCustomers(batch.value, duplicates);
      assert kept == KeptRows(batch.value, duplicates);
      applied := applied + [kept];
      status := Completed;
      error := None;
    }

    method Run(source: Source, autoApply: bool)
      requires source.Delivers? ==> Distinct(Refs(source.customers))
      modifies this
      ensures State() == AfterRun(old(State()), source, autoApply)
    {
      status := Parsing;
      if source.ExtractRaises? { status := Failed; return; }
      status := Normalizing;
      batch := Some(source.customers);
      status := Validating;
      if source.ValidateRaises? { status := Failed; return; }
      duplicates := source.found;
      var pending := AnyOpen(duplicates);
      if pending && !autoApply { status := AwaitingResolution; return; }
      if autoApply {
        duplicates := AutoResolve(duplicates);
        assert duplicates == AutoAll(source.found);
      }
      var error := Apply(source.breaks);
      if error.Some? { status := Failed; }
    }

    method ResolveDuplicates(rs: seq<Resolution>, applyAfter: bool, breaks: bool) returns (error: Option<JobError>)
      requires WellReferenced(State())
      modifies this
      ensures (State(), error) == AfterResolve(old(State()), rs, applyAfter, breaks)
    {
      var fine;
      duplicates, fine := PostDecisions(duplicates, rs);
      if !fine { return Some(BadAction); }
      var pending := AnyOpen(duplicates);
      if pending { status := AwaitingResolution; return None; }
      if applyAfter {
        error := Apply(breaks);
      } else {
        error := None;
      }
    }
  }

  /** The loop over the posted decisions, stopped by an unknown action. */
  method PostDecisions(dups: seq<Duplicate>, rs: seq<Resolution>) returns (decided: seq<Duplicate>, fine: bool)
    ensures (decided, fine) == Resolved(dups, rs)
  {
    decided := dups;
    var i := 0;
    while i < |rs|
      invariant 0 <= i <= |rs|
      invariant Resolved(dups, rs) == Resolved(decided, rs[i..])
    {
      var item := rs[i];
      assert rs[i..][0] == item && rs[i..][1..] == rs[i + 1..];
      i := i + 1;
      if !(0 <= item.candidate < |decided|) { continue; }
      if item.action.Unknown? { return decided, false; }
      var action := if item.action.Asked? then item.action.action else MergeRows;
      decided := decided[item.candidate := Resolve(decided[item.candidate], action)];
    }
    fine := true;
  }

  method AnyOpen(dups: seq<Duplicate>) returns (pending: bool)
    ensures pending == HasOpen(dups)
  {
    for i := 0 to |dups|
      invariant !HasOpen(dups[..i])
    {
      if !dups[i].resolved && dups[i].confidence >= 70 { return true; }
      assert forall k :: 0 <= k < i + 1 ==> k < i ==> dups[..i + 1][k] == dups[..i][k];
    }
    assert dups[..|dups|] == dups;
    pending := false;
  }

  // ---------------------------------------------------------------- all runs of a job

  datatype Operation =
    | Run(source: Source, autoApply: bool)
    | ResolveDuplicates(rs: seq<Resolution>, applyAfter: bool, breaks: bool)

  function Operate(job: Job, op: Operation): Job {
    match op
    case Run(source, autoApply) => AfterRun(job, source, autoApply)
    case ResolveDuplicates(rs, applyAfter, breaks) => AfterResolve(job, rs, applyAfter, breaks).0
  }

  function History(ops: seq<Operation>): Job {
    if ops == [] then NewJob else Operate(History(ops[..|ops| - 1]), ops[|ops| - 1])
  }

  lemma {:induction false} ResolvingOnlyResolves(dups: seq<Duplicate>, rs: seq<Resolution>)
    ensures var after := Resolved(dups, rs).0;
            forall k :: 0 <= k < |dups| ==>
              && after[k] == dups[k].(resolvedAction := after[k].resolvedAction, resolved := after[k].resolved)
              && (dups[k].resolved ==> after[k].resolved)
    decreases |rs|
  {
    if rs != [] && 0 <= rs[0].candidate < |dups| && !rs[0].action.Unknown? {
      var action := if rs[0].action.Asked? then rs[0].action.action else MergeRows;
      ResolvingOnlyResolves(dups[rs[0].candidate := Resolve(dups[rs[0].candidate], action)], rs[1..]);
    } else if rs != [] && !(0 <= rs[0].candidate < |dups|) {
      ResolvingOnlyResolves(dups, rs[1..]);
    }
  }

  /** As detection leaves a candidate: nothing decided yet. */
  predicate Undecided(d: Duplicate) {
    d.resolvedAction.None? && !d.resolved
  }

  /** However a job is run, re-run, resolved and re-resolved: completed means nothing is open. */
  lemma {:induction false} CompletedOnlyWhenResolved(ops: seq<Operation>)
    ensures var job := History(ops);
            && (job.status.Completed? ==> !HasOpen(job.duplicates) && job.batch.Some? && job.applied != [])
            && (job.status.AwaitingResolution? ==> job.batch.Some?)
            && (job.duplicates != [] ==> job.batch.Some?)
  {
    if ops != [] {
      var before, op := History(ops[..|ops| - 1]), ops[|ops| - 1];
      CompletedOnlyWhenResolved(ops[..|ops| - 1]);
      if op.ResolveDuplicates? {
        ResolvingOnlyResolves(before.duplicates, op.rs);
      }
    }
  }

  /** Detection decides nothing. */
  predicate DetectsOnly(op: Operation) {
    op.Run? && op.source.Delivers? ==> forall k :: 0 <= k < |op.source.found| ==> Undecided(op.source.found[k])
  }

  predicate ResolvedWithAction(dups: seq<Duplicate>) {
    forall k :: 0 <= k < |dups| ==> (dups[k].resolved ==> dups[k].resolvedAction.Some?)
  }

  lemma {:induction false} ResolvingSetsActions(dups: seq<Duplicate>, rs: seq<Resolution>)
    requires ResolvedWithAction(dups)
    ensures ResolvedWithAction(Resolved(dups, rs).0)
    decreases |rs|
  {
    if rs != [] && 0 <= rs[0].candidate < |dups| && !rs[0].action.Unknown? {
      var action := if rs[0].action.Asked? then rs[0].action.action else MergeRows;
      ResolvingSetsActions(dups[rs[0].candidate := Resolve(dups[rs[0].candidate], action)], rs[1..]);
    } else if rs != [] && !(0 <= rs[0].candidate < |dups|) {
      ResolvingSetsActions(dups, rs[1..]);
    }
  }

  /** So in a completed job every candidate of confidence 0.7 or more has an action somebody, or the setting, chose. */
  lemma {:induction false} CompletedMeansDecided(ops: seq<Operation>)
    requires forall op :: op in ops ==> DetectsOnly(op)
    ensures var job := History(ops);
            && ResolvedWithAction(job.duplicates)
            && (job.status.Completed? ==> forall d :: d in job.duplicates && d.resolvedAction.None? ==>
                d.confidence < 70)
    decreases |ops|
  {
    if ops != [] {
      var before, op := History(ops[..|ops| - 1]), ops[|ops| - 1];
      assert op in ops && forall o :: o in ops[..|ops| - 1] ==> o in ops;
      CompletedMeansDecided(ops[..|ops| - 1]);
      if op.ResolveDuplicates? { ResolvingSetsActions(before.duplicates, op.rs); }
    }
    CompletedOnlyWhenResolved(ops);
    var job := History(ops);
    forall d | d in job.duplicates && d.resolvedAction.None? && job.status.Completed?
      ensures d.confidence < 70
    {
      var k :| 0 <= k < |job.duplicates| && job.duplicates[k] == d;
      assert !Open(job.duplicates[k]);
    }
  }

  /** Candidates that are undecided and not open leave out no row, customer or vehicle. */
  lemma NothingOpenLeavesAll<T>(
    found: seq<Duplicate>, kind: EntityKind, rows: seq<T>, refs: seq<string>, combine: Combine<T>)
    requires !HasOpen(found) && forall k :: 0 <= k < |found| ==> Undecided(found[k])
    requires |rows| == |refs|
    ensures Leave(rows, refs, found, kind, combine) == rows
  {
    var skip := LeftOut(found, kind);
    forall d | d in found
      ensures !LeavesOut(ActionOf(d))
    {
      var k :| 0 <= k < |found| && found[k] == d;
      assert !Open(found[k]) && Undecided(found[k]);
    }
    assert skip == {};
    NoRowLeftOut(found, kind, rows, refs, combine);
  }

  /**
   A run that completes without the automatic setting writes every customer row of the batch unchanged, and its
   candidates leave out no vehicle row either.
   */
  lemma DirectCompletionDropsNothing<T>(
    job: Job, customers: seq<Customer>, found: seq<Duplicate>, vehicles: seq<T>, refs: seq<string>, combine: Combine<T>)
    requires forall k :: 0 <= k < |found| ==> Undecided(found[k])
    requires AfterRun(job, Delivers(customers, found, false), false).status.Completed?
    requires |vehicles| == |refs|
    ensures AfterRun(job, Delivers(customers, found, false), false).applied == job.applied + [customers]
    ensures Leave(vehicles, refs, found, VehicleKind, combine) == vehicles
  {
    assert !HasOpen(found);
    NothingOpenLeavesAll(found, CustomerKind, customers, Refs(customers), MergeCustomer);
    NothingOpenLeavesAll(found, VehicleKind, vehicles, refs, combine);
  }

  /** When no row is left out, all rows are left and none absorbs another. */
  lemma NoRowLeftOut<T>(dups: seq<Duplicate>, kind: EntityKind, rows: seq<T>, refs: seq<string>, combine: Combine<T>)
    requires |rows| == |refs| && forall i :: 0 <= i < |refs| ==> refs[i] !in LeftOut(dups, kind)
    ensures Leave(rows, refs, dups, kind, combine) == rows
  {
    var skip := LeftOut(dups, kind);
    AllKept(refs, skip, |refs|);
    forall k | 0 <= k < |rows|
      ensures Absorbed(rows, refs, skip, Targets(dups, kind), combine, k, |rows|) == rows[k]
    {
      NoneSkipped(rows, refs, skip, Targets(dups, kind), combine, k, |rows|);
    }
  }

  lemma {:induction false} AllKept(refs: seq<string>, skip: set<string>, n: nat)
    requires n <= |refs| && forall i :: 0 <= i < n ==> refs[i] !in skip
    ensures KeptBelow(refs, skip, n) == seq(n, k => k)
  {
    if n > 0 { AllKept(refs, skip, n - 1); }
  }

  lemma {:induction false} NoneSkipped<T>(
    rows: seq<T>, refs: seq<string>, skip: set<string>, targets: map<string, string>, combine: Combine<T>, k: nat,
        n: nat)
    requires |rows| == |refs| && k < |rows| && n <= |rows|
    requires forall i :: 0 <= i < |refs| ==> refs[i] !in skip
    ensures Absorbed(rows, refs, skip, targets, combine, k, n) == rows[k]
    decreases n
  {
    if n > k + 1 { NoneSkipped(rows, refs, skip, targets, combine, k, n - 1); }
  }

  /**
   A completed job can be applied again: a resolve call on it writes all its rows once more, under the decisions now
   posted, exactly when it is asked to apply, knows every action and writing does not raise.
   */
  lemma ResolvingACompletedJobWritesItAgain(ops: seq<Operation>, rs: seq<Resolution>, applyAfter: bool, breaks: bool)
    requires History(ops).status.Completed?
    ensures var job := History(ops);
            var (dups, fine) := Resolved(job.duplicates, rs);
            job.batch.Some? &&
            Operate(job, ResolveDuplicates(rs, applyAfter, breaks)).applied ==
            if fine && applyAfter && !breaks then job.applied + [KeptRows(job.batch.value, dups)] else job.applied
  {
    var job := History(ops);
    CompletedOnlyWhenResolved(ops);
    ResolvingOnlyResolves(job.duplicates, rs);
    var dups := Resolved(job.duplicates, rs).0;
    assert !HasOpen(dups) by {
      forall k | 0 <= k < |dups|
        ensures !Open(dups[k])
      {
        assert !Open(job.duplicates[k]);
      }
    }
  }

  // ---------------------------------------------------------------- what one call leaves

  /** The last action posted for candidate `k`. */
  function Posted(rs: seq<Resolution>, k: nat): Option<Action> {
    if rs == [] then None
    else
      var last := rs[|rs| - 1];
      if last.candidate != k then Posted(rs[..|rs| - 1], k)
      else if last.action.Asked? then Some(last.action.action)
      else Some(MergeRows)
  }

  lemma {:induction false} PostedFirst(r: Resolution, rs: seq<Resolution>, k: nat)
    ensures Posted([r] + rs, k) == OrElse(Posted(rs, k), Posted([r], k))
  {
    if rs != [] {
      var front, last := rs[..|rs| - 1], rs[|rs| - 1];
      assert ([r] + rs)[..|rs|] == [r] + front && ([r] + rs)[|rs|] == last;
      PostedFirst(r, front, k);
    }
  }

  /** When all actions are known, each candidate carries the last action posted for it, else the one it had. */
  lemma {:induction false} LastPostedCounts(dups: seq<Duplicate>, rs: seq<Resolution>, k: nat)
    requires k < |dups| && Resolved(dups, rs).1
    ensures var after := Resolved(dups, rs).0[k];
            && after.resolvedAction == OrElse(Posted(rs, k), dups[k].resolvedAction)
            && (after.resolved <==> dups[k].resolved || Posted(rs, k).Some?)
    decreases |rs|
  {
    if rs != [] {
      var item := rs[0];
      assert rs == [item] + rs[1..] && [item][..0] == [];
      PostedFirst(item, rs[1..], k);
      if 0 <= item.candidate < |dups| {
        var action := if item.action.Asked? then item.action.action else MergeRows;
        LastPostedCounts(dups[item.candidate := Resolve(dups[item.candidate], action)], rs[1..], k);
      } else {
        LastPostedCounts(dups, rs[1..], k);
      }
    }
  }

  /** All actions are known unless one posted for a candidate that is there is not. */
  lemma {:induction false} FineExactlyWhen(dups: seq<Duplicate>, rs: seq<Resolution>)
    ensures Resolved(dups, rs).1 <==>
            forall i :: 0 <= i < |rs| && 0 <= rs[i].candidate < |dups| ==> !rs[i].action.Unknown?
    decreases |rs|
  {
    if rs != [] {
      var item := rs[0];
      assert rs[1..] == [] || forall i :: 0 < i < |rs| ==> rs[i] == rs[1..][i - 1];
      if 0 <= item.candidate < |dups| {
        if item.action.Unknown? { return; }
        var action := if item.action.Asked? then item.action.action else MergeRows;
        FineExactlyWhen(dups[item.candidate := Resolve(dups[item.candidate], action)], rs[1..]);
      } else {
        FineExactlyWhen(dups, rs[1..]);
      }
    }
  }

  /** The decisions before the first unknown action count, the ones behind it do not. */
  lemma {:induction false} UnknownStops(dups: seq<Duplicate>, rs: seq<Resolution>, n: nat)
    requires n < |rs| && 0 <= rs[n].candidate < |dups| && rs[n].action.Unknown? && Resolved(dups, rs[..n]).1
    ensures Resolved(dups, rs) == (Resolved(dups, rs[..n]).0, false)
    decreases |rs|
  {
    if n > 0 {
      var item := rs[0];
      assert rs[..n][0] == item && rs[..n][1..] == rs[1..][..n - 1] && rs[1..][n - 1] == rs[n];
      if 0 <= item.candidate < |dups| {
        var action := if item.action.Asked? then item.action.action else MergeRows;
        UnknownStops(dups[item.candidate := Resolve(dups[item.candidate], action)], rs[1..], n - 1);
      } else {
        UnknownStops(dups, rs[1..], n - 1);
      }
    }
  }

  /**
   A run ends waiting for resolution exactly when it delivers open candidates without the automatic setting, completed
   exactly when it delivers, nothing breaks and nothing holds it up, and failed otherwise. Nothing is written unless
   it completes; an automatic run has taken the suggestion for every candidate of confidence 0.7 or more.
   */
  lemma RunEnds(job: Job, source: Source, autoApply: bool)
    ensures var after := AfterRun(job, source, autoApply);
            var open := source.Delivers? && exists k ::
                          0 <= k < |source.found| && !source.found[k].resolved && source.found[k].confidence >= 70;
            && after.status == (if source.Delivers? && open && !autoApply then AwaitingResolution
                                else if source.Delivers? && !source.breaks then Completed
                                else Failed)
            && after.batch == (if source.ExtractRaises? then job.batch else Some(source.customers))
            && (!source.Delivers? ==> after.duplicates == job.duplicates)
            && (source.Delivers? ==> |after.duplicates| == |source.found|)
            && (source.Delivers? ==>
                  forall k :: 0 <= k < |source.found| ==>
                    var d := source.found[k];
                    after.duplicates[k] ==
                    if autoApply && !d.resolved && d.confidence >= 70
                    then d.(resolvedAction := Some(d.suggested), resolved := true) else d)
            && (after.status.Completed? ==>
                  after.applied == job.applied + [KeptRows(source.customers, after.duplicates)])
            && (!after.status.Completed? ==> after.applied == job.applied)
  {
    if source.Delivers? && !autoApply && HasOpen(source.found) {
      var k :| 0 <= k < |source.found| && Open(source.found[k]);
      assert !source.found[k].resolved && source.found[k].confidence >= 70;
    }
    if source.Delivers? {
      assert forall k :: 0 <= k < |source.found| ==>
          (Open(source.found[k]) <==> !source.found[k].resolved && source.found[k].confidence >= 70);
    }
  }

  /**
   What a resolve call leaves: after an unknown action the status it found, with a candidate of confidence 0.7 or more
   open AWAITING_RESOLUTION, else, asked to apply, COMPLETED or, when writing raised, APPLYING; and each outcome has
   its error. The candidates are decided in every case.
   */
  lemma ResolveEnds(job: Job, rs: seq<Resolution>, applyAfter: bool, breaks: bool)
    ensures var (after, error) := AfterResolve(job, rs, applyAfter, breaks);
            var known := forall i :: 0 <= i < |rs| && 0 <= rs[i].candidate < |job.duplicates| ==>
                           !rs[i].action.Unknown?;
            var open := exists k :: 0 <= k < |after.duplicates|
                          && !after.duplicates[k].resolved && after.duplicates[k].confidence >= 70;
            && after.duplicates == Resolved(job.duplicates, rs).0 && after.batch == job.batch
            && (!known ==> error == Some(BadAction) && after.status == job.status)
            && (known && open ==> error == None && after.status.AwaitingResolution?)
            && (known && !open && !applyAfter ==> error == None && after.status == job.status)
            && (known && !open && applyAfter && job.batch.None? ==>
                  error == Some(NoBatch) && after.status == job.status)
            && (known && !open && applyAfter && job.batch.Some? ==>
                  if breaks then error == Some(WriteRaised) && after.status.Applying?
                  else error == None && after.status.Completed?)
            && after.applied ==
                 if known && !open && applyAfter && job.batch.Some? && !breaks
                 then job.applied + [KeptRows(job.batch.value, after.duplicates)] else job.applied
  {
    var dups := Resolved(job.duplicates, rs).0;
    FineExactlyWhen(job.duplicates, rs);
    assert forall k :: 0 <= k < |dups| ==> (Open(dups[k]) <==> !dups[k].resolved && dups[k].confidence >= 70);
  }

  // ---------------------------------------------------------------- whose candidates are applied

  /** Some rows of the batch, in order and as they were. */
  ghost predicate KeptFrom(customers: seq<Customer>, rows: seq<Customer>) {
    exists skip :: AreKept(customers, skip, rows)
  }

  ghost predicate AreKept(customers: seq<Customer>, skip: set<string>, rows: seq<Customer>) {
    var ks := KeptBelow(Refs(customers), skip, |customers|);
    |rows| == |ks| && forall x :: 0 <= x < |ks| ==> rows[x] == customers[ks[x]]
  }

  lemma ForwardKeepsRows(customers: seq<Customer>, dups: seq<Duplicate>)
    requires PointForward(customers, dups)
    ensures AreKept(customers, LeftOut(dups, CustomerKind), KeptRows(customers, dups))
  {
    var ks := KeptBelow(Refs(customers), LeftOut(dups, CustomerKind), |customers|);
    forall x | 0 <= x < |ks|
      ensures KeptRows(customers, dups)[x] == customers[ks[x]]
    {
      ForwardCombinesNothing(customers, dups, ks[x]);
    }
  }

  /** Nothing raises between the new batch and its candidates, and these are as detection finds them. */
  ghost predicate RenewsBoth(op: Operation) {
    op.Run? ==>
      && !op.source.ValidateRaises?
      && (op.source.Delivers? ==> PointForward(op.source.customers, op.source.found))
  }

  ghost predicate IsDelivered(ops: seq<Operation>, customers: seq<Customer>) {
    exists op :: op in ops && op.Run? && op.source.Delivers? && op.source.customers == customers
  }

  /** The candidates point forward in the batch, and every apply wrote rows of one delivered batch unchanged. */
  ghost predicate OwnRows(ops: seq<Operation>, job: Job) {
    && (job.batch.Some? ==> IsDelivered(ops, job.batch.value) && PointForward(job.batch.value, job.duplicates))
    && forall rows :: rows in job.applied ==>
         exists customers :: IsDelivered(ops, customers) && KeptFrom(customers, rows)
  }

  lemma ApplyKeepsOwnRows(ops: seq<Operation>, job: Job, breaks: bool)
    requires OwnRows(ops, job) && job.batch.Some?
    ensures OwnRows(ops, AfterApply(job, breaks))
  {
    hide KeptRows;
    hide PointForward;
    var customers := job.batch.value;
    ForwardKeepsRows(customers, job.duplicates);
    assert KeptFrom(customers, KeptRows(customers, job.duplicates));
  }

  lemma RunKeepsOwnRows(ops: seq<Operation>, job: Job, source: Source, autoApply: bool)
    requires OwnRows(ops, job) && Run(source, autoApply) in ops && RenewsBoth(Run(source, autoApply))
    ensures OwnRows(ops, AfterRun(job, source, autoApply))
  {
    hide PointForward;
    hide KeptFrom;
    hide AfterApply;
    if source.Delivers? {
      var customers, found := source.customers, source.found;
      assert IsDelivered(ops, customers);
      DecidedPointForward(customers, found, AutoAll(found));
      ApplyKeepsOwnRows(ops, job.(batch := Some(customers),
        duplicates := if autoApply then AutoAll(found) else found), source.breaks);
    }
  }

  lemma ResolveKeepsOwnRows(ops: seq<Operation>, job: Job, rs: seq<Resolution>, applyAfter: bool, breaks: bool)
    requires OwnRows(ops, job)
    ensures OwnRows(ops, AfterResolve(job, rs, applyAfter, breaks).0)
  {
    hide PointForward;
    hide KeptFrom;
    hide AfterApply;
    if job.batch.Some? {
      var dups := Resolved(job.duplicates, rs).0;
      ResolvingOnlyResolves(job.duplicates, rs);
      DecidedPointForward(job.batch.value, job.duplicates, dups);
      ApplyKeepsOwnRows(ops, job.(duplicates := dups), breaks);
    }
  }

  /**
   However a job is run and resolved, as long as validation does not raise: each apply writes rows of one delivered
   batch, in order and unchanged, whatever was decided.
   */
  lemma {:induction false} HistoriesCombineNothing(ops: seq<Operation>, n: nat)
    requires n <= |ops| && forall op :: op in ops ==> RenewsBoth(op)
    ensures OwnRows(ops, History(ops[..n]))
  {
    if n > 0 {
      assert ops[..n][..n - 1] == ops[..n - 1];
      HistoriesCombineNothing(ops, n - 1);
      var before, op := History(ops[..n - 1]), ops[n - 1];
      match op
      case Run(source, autoApply) => RunKeepsOwnRows(ops, before, source, autoApply);
      case ResolveDuplicates(rs, applyAfter, breaks) => ResolveKeepsOwnRows(ops, before, rs, applyAfter, breaks);
    }
  }

  /** Rows in the other order: the candidate of the first batch points back in the second, and merging combines. */
  lemma SwappedRowsAreCombined(a: Customer, b: Customer, d: Duplicate)
    requires Truthy(a.rowRef) && Truthy(b.rowRef) && a.rowRef != b.rowRef
    requires d.kind.CustomerKind? && Some(d.incoming) == a.rowRef && d.existing == b.rowRef && Merges(ActionOf(d))
    ensures KeptRows([b, a], [d]) == [MergeCustomer(b, a)]
  {
    var rows, dups := [b, a], [d];
    var refs, skip, targets := Refs(rows), LeftOut(dups, CustomerKind), Targets(dups, CustomerKind);
    assert d in dups && dups[..0] == [] && Targets([], CustomerKind) == map[];
    assert refs[1] == d.incoming && refs[0] == TargetOf(d);
    assert targets == map[refs[1] := refs[0]];
    assert KeptBelow(refs, skip, 1) == [0] && KeptBelow(refs, skip, 2) == [0];
    assert Absorbed(rows, refs, skip, targets, MergeCustomer, 0, 1) == b;
  }

  /** When validation raises, the new batch is applied under the candidates of the one before. */
  lemma RaisingValidationMixesBatches(a: Customer, b: Customer, norm: Norm)
    requires Truthy(a.phone) && a.phone == b.phone
    requires Truthy(a.rowRef) && Truthy(b.rowRef) && a.rowRef != b.rowRef
    ensures var found := [Candidate([a, b], norm, 0, 1)];
            History([Run(Delivers([a, b], found, false), false), Run(ValidateRaises([b, a]), false),
                     ResolveDuplicates([Resolution(0, NoAction)], true, false)]).applied == [[MergeCustomer(b, a)]]
  {
    var found := [Candidate([a, b], norm, 0, 1)];
    var stop, raise := Run(Delivers([a, b], found, false), false), Run(ValidateRaises([b, a]), false);
    var rs := [Resolution(0, NoAction)];
    var one, two := [stop], [stop, raise];
    var ops := [stop, raise, ResolveDuplicates(rs, true, false)];
    assert ops[..2] == two && two[..1] == one && one[..0] == [];
    assert Open(found[0]);
    assert History(one) == Job(AwaitingResolution, Some([a, b]), found, []) by { assert History([]) == NewJob; }
    assert History(two) == Job(Failed, Some([b, a]), found, []);
    var decided := [Resolve(found[0], MergeRows)];
    assert rs[1..] == [] && Resolved(found, rs).0 == decided;
    SwappedRowsAreCombined(a, b, decided[0]);
  }
}
