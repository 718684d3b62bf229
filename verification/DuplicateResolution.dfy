/**
 What resolving duplicates does to the rows of a batch.

 Resolutions are turned into rows to leave out and rows to merge into; then the rows are walked
 in order.  The results say which rows are left, that they come through unchanged whatever
 was decided, and what an automatic run keeps.
 */
module DuplicateResolution {
  import opened Wrappers
  import opened ImportModels
  import opened DuplicateDetection

  // ---------------------------------------------------------------- the plan

  /** The action taken for a candidate: the decided one, else the suggested one if confidence is high. */
  function ActionOf(d: Duplicate): Option<Action> {
    if d.resolvedAction.Some? then d.resolvedAction
    else if d.confidence >= 90 then Some(d.suggested)
    else None
  }

  predicate LeavesOut(a: Option<Action>) {
    a == Some(Skip) || a == Some(MergeRows) || a == Some(KeepExisting)
  }

  predicate Merges(a: Option<Action>) {
    a == Some(MergeRows) || a == Some(KeepExisting)
  }

  /** The references of the rows that are left out. */
  function LeftOut(dups: seq<Duplicate>, kind: EntityKind): set<string> {
    set d | d in dups && d.kind == kind && LeavesOut(ActionOf(d)) :: d.incoming
  }

  /** Which row a left-out row is to be merged into; the last decision about a row wins. */
  function Targets(dups: seq<Duplicate>, kind: EntityKind): map<string, string> {
    if dups == [] then map[]
    else
      var d, before := dups[|dups| - 1], Targets(dups[..|dups| - 1], kind);
      if d.kind == kind && Merges(ActionOf(d)) then before[d.incoming := TargetOf(d)] else before
  }

  function TargetOf(d: Duplicate): string {
    if Truthy(d.existing) then d.existing.value else d.incoming
  }

  predicate DecidedAgainst(d: Duplicate) {
    if d.resolvedAction.Some? then d.resolvedAction != Some(KeepIncoming)
    else d.confidence >= 90 && d.suggested != KeepIncoming
  }

  /**
   A row is left out exactly when some candidate about it was decided otherwise than to keep the incoming row, or is
   undecided, of confidence 0.9 or more, and suggests otherwise.
   */
  lemma LeftOutExactlyWhen(dups: seq<Duplicate>, kind: EntityKind, r: string)
    ensures r in LeftOut(dups, kind) <==> exists k ::
              0 <= k < |dups| && dups[k].kind == kind && dups[k].incoming == r && DecidedAgainst(dups[k])
  {
    if r in LeftOut(dups, kind) {
      var d :| d in dups && d.kind == kind && LeavesOut(ActionOf(d)) && d.incoming == r;
      var k :| 0 <= k < |dups| && dups[k] == d;
      assert dups[k].incoming == r;
    }
    if k :| 0 <= k < |dups| && dups[k].kind == kind && dups[k].incoming == r && DecidedAgainst(dups[k]) {
      var action := if dups[k].resolvedAction.Some? then dups[k].resolvedAction.value else dups[k].suggested;
      assert action.KeepExisting? || action.MergeRows? || action.Skip?;
      assert dups[k] in dups && LeavesOut(ActionOf(dups[k]));
    }
  }

  /** The candidate's action, decided or taken by default, is to merge or to keep the existing row. */
  predicate MergesAway(d: Duplicate) {
    var action := if d.resolvedAction.Some? then d.resolvedAction.value
                  else if d.confidence >= 90 then d.suggested else KeepIncoming;
    action == MergeRows || action == KeepExisting
  }

  /** A row is merged into the existing row the last such candidate about it names, or into itself if it names none. */
  lemma {:induction false} LastTargetCounts(dups: seq<Duplicate>, kind: EntityKind, k: nat)
    requires k < |dups| && dups[k].kind == kind && MergesAway(dups[k])
    requires forall l :: k < l < |dups| && dups[l].kind == kind && MergesAway(dups[l]) ==>
               dups[l].incoming != dups[k].incoming
    ensures var d := dups[k];
            && d.incoming in Targets(dups, kind)
            && Some(Targets(dups, kind)[d.incoming]) ==
                 if d.existing == None || d.existing == Some("") then Some(d.incoming) else d.existing
  {
    if k < |dups| - 1 { LastTargetCounts(dups[..|dups| - 1], kind, k); }
  }

  method PlanResolutions(dups: seq<Duplicate>)
    returns (skipCustomers: set<string>, skipVehicles: set<string>,
             customerMerges: map<string, string>, vehicleMerges: map<string, string>)
    ensures skipCustomers == LeftOut(dups, CustomerKind) && skipVehicles == LeftOut(dups, VehicleKind)
    ensures customerMerges == Targets(dups, CustomerKind) && vehicleMerges == Targets(dups, VehicleKind)
  {
    skipCustomers, skipVehicles, customerMerges, vehicleMerges := {}, {}, map[], map[];
    for i := 0 to |dups|
      invariant skipCustomers == LeftOut(dups[..i], CustomerKind) && skipVehicles == LeftOut(dups[..i], VehicleKind)
      invariant customerMerges == Targets(dups[..i], CustomerKind) && vehicleMerges == Targets(dups[..i], VehicleKind)
    {
      var d := dups[i];
      assert dups[..i + 1] == dups[..i] + [d];
      OneMore(dups[..i], d, CustomerKind);
      OneMore(dups[..i], d, VehicleKind);
      var action := d.resolvedAction;
      if action.None? {
        if d.confidence >= 90 { action := Some(d.suggested); } else { continue; }
      }
      if action == Some(Skip) {
        if d.kind.CustomerKind? {
          skipCustomers := skipCustomers + {d.incoming};
        } else {
          skipVehicles := skipVehicles + {d.incoming};
        }
      } else if action == Some(MergeRows) || action == Some(KeepExisting) {
        if d.kind.CustomerKind? {
          customerMerges := customerMerges[d.incoming := TargetOf(d)];
          skipCustomers := skipCustomers + {d.incoming};
        } else {
          vehicleMerges := vehicleMerges[d.incoming := TargetOf(d)];
          skipVehicles := skipVehicles + {d.incoming};
        }
      }
    }
    assert dups[..|dups|] == dups;
  }

  lemma OneMore(before: seq<Duplicate>, d: Duplicate, kind: EntityKind)
    ensures LeftOut(before + [d], kind) ==
            LeftOut(before, kind) + if d.kind == kind && LeavesOut(ActionOf(d)) then {d.incoming} else {}
    ensures Targets(before + [d], kind) ==
            if d.kind == kind && Merges(ActionOf(d)) then Targets(before, kind)[d.incoming := TargetOf(d)]
            else Targets(before, kind)
  {
    assert (before + [d])[..|before|] == before;
    assert forall x :: x in before + [d] <==> x in before || x == d;
  }

  // ---------------------------------------------------------------- walking the rows

  type Combine<!T> = (T, T) -> T

  /** The row kept at `k` once the first `n` rows have been walked. */
  function Absorbed<T>(rows: seq<T>, refs: seq<string>, skip: set<string>, targets: map<string, string>,
                       combine: Combine<T>, k: nat, n: nat): T
    requires |rows| == |refs| && k < |rows| && n <= |rows|
    decreases n
  {
    if n <= k + 1 then rows[k]
    else
      var before := Absorbed(rows, refs, skip, targets, combine, k, n - 1);
      var r := refs[n - 1];
      if r in skip && r in targets && targets[r] == refs[k] then combine(before, rows[n - 1]) else before
  }

  /** The positions, below `n`, of the rows that are not left out. */
  function KeptBelow(refs: seq<string>, skip: set<string>, n: nat): (ks: seq<nat>)
    requires n <= |refs|
    ensures forall x :: 0 <= x < |ks| ==> ks[x] < n && refs[ks[x]] !in skip
  {
    if n == 0 then []
    else KeptBelow(refs, skip, n - 1) + if refs[n - 1] in skip then [] else [n - 1]
  }

  lemma {:induction false} KeptAre(refs: seq<string>, skip: set<string>, n: nat)
    requires n <= |refs|
    ensures forall k :: k in KeptBelow(refs, skip, n) <==> 0 <= k < n && refs[k] !in skip
    ensures Rising(KeptBelow(refs, skip, n))
  {
    if n > 0 {
      KeptAre(refs, skip, n - 1);
      var ks, before := KeptBelow(refs, skip, n), KeptBelow(refs, skip, n - 1);
      assert forall x :: 0 <= x < |before| ==> ks[x] == before[x];
      forall k
        ensures k in ks <==> 0 <= k < n && refs[k] !in skip
      {
        if k == n - 1 && refs[k] !in skip { assert ks[|before|] == k; }
      }
    }
  }

  /** `_merge_customers` and `_merge_vehicles`: a dictionary of kept rows and the order they came in. */
  method WalkRows<T>(rows: seq<T>, refs: seq<string>, skip: set<string>, targets: map<string, string>,
      combine: Combine<T>)
    returns (kept: seq<T>)
    requires |rows| == |refs| && Distinct(refs)
    ensures |kept| == |KeptBelow(refs, skip, |rows|)|
    ensures forall x :: 0 <= x < |kept| ==>
              kept[x] == Absorbed(rows, refs, skip, targets, combine, KeptBelow(refs, skip, |rows|)[x], |rows|)
  {
    hide Walked;
    hide Absorbed;
    hide KeptBelow;
    var byRef: map<string, T> := map[];
    var order: seq<string> := [];
    NothingWalked(rows, refs, skip, targets, combine);
    var i := 0;
    while i < |rows|
      invariant 0 <= i <= |rows|
      invariant Walked(rows, refs, skip, targets, combine, i, byRef)
      invariant InOrder(refs, KeptBelow(refs, skip, i), order)
    {
      var ref := refs[i];
      WalkOne(rows, refs, skip, targets, combine, i, byRef);
      OneMoreInOrder(refs, skip, i, order);
      if ref in skip {
        if ref in targets && targets[ref] in byRef {
          byRef := byRef[targets[ref] := combine(byRef[targets[ref]], rows[i])];
        }
      } else {
        byRef := byRef[ref := rows[i]];
        order := order + [ref];
      }
      i := i + 1;
    }
    InDictionary(rows, refs, skip, targets, combine, byRef, order);
    kept := ReadInOrder(byRef, order);
  }

  lemma NothingWalked<T>(rows: seq<T>, refs: seq<string>, skip: set<string>, targets: map<string, string>,
      combine: Combine<T>)
    requires |rows| == |refs|
    ensures Walked(rows, refs, skip, targets, combine, 0, map[])
    ensures InOrder(refs, KeptBelow(refs, skip, 0), [])
  {
  }

  lemma OneMoreInOrder(refs: seq<string>, skip: set<string>, n: nat, order: seq<string>)
    requires n < |refs| && InOrder(refs, KeptBelow(refs, skip, n), order)
    ensures InOrder(refs, KeptBelow(refs, skip, n + 1), if refs[n] in skip then order else order + [refs[n]])
  {
  }

  lemma InDictionary<T>(rows: seq<T>, refs: seq<string>, skip: set<string>, targets: map<string, string>,
                        combine: Combine<T>, byRef: map<string, T>, order: seq<string>)
    requires |rows| == |refs|
    requires Walked(rows, refs, skip, targets, combine, |rows|, byRef)
        && InOrder(refs, KeptBelow(refs, skip, |rows|), order)
    ensures forall x :: 0 <= x < |order| ==>
              && order[x] in byRef
              && byRef[order[x]] ==
                  Absorbed(rows, refs, skip, targets, combine, KeptBelow(refs, skip, |rows|)[x], |rows|)
  {
    var ks := KeptBelow(refs, skip, |rows|);
    forall x | 0 <= x < |order|
      ensures order[x] in byRef && byRef[order[x]] == Absorbed(rows, refs, skip, targets, combine, ks[x], |rows|)
    {
      assert order[x] == refs[ks[x]] && refs[ks[x]] !in skip;
    }
  }

  /** `[by_ref[r] for r in order if r in by_ref]` */
  method ReadInOrder<T>(byRef: map<string, T>, order: seq<string>) returns (kept: seq<T>)
    requires forall x :: 0 <= x < |order| ==> order[x] in byRef
    ensures |kept| == |order| && forall x :: 0 <= x < |order| ==> kept[x] == byRef[order[x]]
  {
    kept := [];
    for x := 0 to |order|
      invariant |kept| == x && forall y :: 0 <= y < x ==> kept[y] == byRef[order[y]]
    {
      kept := kept + [byRef[order[x]]];
    }
  }

  ghost predicate InOrder(refs: seq<string>, ks: seq<nat>, order: seq<string>) {
    && |order| == |ks|
    && forall x :: 0 <= x < |ks| ==> ks[x] < |refs| && order[x] == refs[ks[x]]
  }

  /** After `n` rows the dictionary holds each kept row with what it has absorbed, and nothing else. */
  ghost predicate Walked<T>(rows: seq<T>, refs: seq<string>, skip: set<string>, targets: map<string, string>,
                            combine: Combine<T>, n: nat, byRef: map<string, T>)
    requires |rows| == |refs| && n <= |rows|
  {
    && (forall r :: r in byRef ==> r !in skip && r in refs[..n])
    && (forall k :: 0 <= k < n && refs[k] !in skip ==>
          refs[k] in byRef && byRef[refs[k]] == Absorbed(rows, refs, skip, targets, combine, k, n))
  }

  function Walk<T>(byRef: map<string, T>, ref: string, row: T, skip: set<string>, targets: map<string, string>,
                   combine: Combine<T>): map<string, T>
  {
    if ref !in skip then byRef[ref := row]
    else if ref in targets && targets[ref] in byRef then byRef[targets[ref] := combine(byRef[targets[ref]], row)]
    else byRef
  }

  lemma WalkOne<T>(rows: seq<T>, refs: seq<string>, skip: set<string>, targets: map<string, string>,
                   combine: Combine<T>, n: nat, byRef: map<string, T>)
    requires |rows| == |refs| && n < |rows| && Distinct(refs)
    requires Walked(rows, refs, skip, targets, combine, n, byRef)
    ensures Walked(rows, refs, skip, targets, combine, n + 1, Walk(byRef, refs[n], rows[n], skip, targets, combine))
  {
    var byRef' := Walk(byRef, refs[n], rows[n], skip, targets, combine);
    assert refs[..n + 1] == refs[..n] + [refs[n]];
    forall k | 0 <= k < n + 1 && refs[k] !in skip
      ensures refs[k] in byRef' && byRef'[refs[k]] == Absorbed(rows, refs, skip, targets, combine, k, n + 1)
    {
    }
  }

  /** Fills what the first row lacks from the second. */
  function MergeCustomer(primary: Customer, secondary: Customer): Customer {
    Customer(
      Or(primary.externalId, secondary.externalId),
      if primary.name != "" then primary.name else secondary.name,
      Or(primary.phone, secondary.phone),
      Or(primary.email, secondary.email),
      Or(primary.address, secondary.address),
      primary.source,
      secondary.metadata + primary.metadata,
      Or(primary.rowRef, secondary.rowRef))
  }

  /** Each field of the kept row stays where it holds something, and is filled from the other where it does not. */
  lemma MergeFillsGaps(primary: Customer, secondary: Customer)
    ensures var r := MergeCustomer(primary, secondary);
            && (r.name == if primary.name == "" then secondary.name else primary.name)
            && r.externalId == Filled(primary.externalId, secondary.externalId)
            && r.phone == Filled(primary.phone, secondary.phone) && r.email == Filled(primary.email, secondary.email)
            && r.address == Filled(primary.address, secondary.address)
            && r.rowRef == Filled(primary.rowRef, secondary.rowRef) && r.source == primary.source
            && r.metadata.Keys == primary.metadata.Keys + secondary.metadata.Keys
            && (forall key :: key in primary.metadata ==> r.metadata[key] == primary.metadata[key])
            && (forall key :: key in secondary.metadata && key !in primary.metadata ==>
                  r.metadata[key] == secondary.metadata[key])
  {
  }

  function Filled(value: Option<string>, other: Option<string>): Option<string> {
    if value == None || value == Some("") then other else value
  }

  // ---------------------------------------------------------------- what comes out

  /** The same candidates after any decisions about them. */
  ghost predicate Decided(found: seq<Duplicate>, decided: seq<Duplicate>) {
    && |decided| == |found|
    && forall k :: 0 <= k < |found| ==>
         decided[k] == found[k].(resolvedAction := decided[k].resolvedAction, resolved := decided[k].resolved)
  }

  /** Record ids are fresh, so no row is referred to by one. */
  ghost predicate FreshIds(records: seq<Record>, refs: seq<string>) {
    && (forall r :: r in records ==> r.id != "" && r.id !in refs)
    && (forall r, r' :: r in records && r' in records && r.id == r'.id ==> r == r')
  }

  /** Detection names as existing row a later row or a record, never an earlier row. */
  lemma TargetsComeLater(
    customers: seq<Customer>, norm: Norm, records: seq<Record>, lower: Norm,
    batch: seq<Duplicate>, store: seq<Duplicate>, d: Duplicate, n: nat)
    requires Distinct(Refs(customers)) && FreshIds(records, Refs(customers))
    requires ExactlyThePairs(customers, norm, batch) && ExactlyTheMatches(customers, records, lower, store)
    requires d in batch + store && n < |customers| && d.incoming == Refs(customers)[n]
    ensures TargetOf(d) !in Refs(customers)[..n + 1]
  {
    var refs := Refs(customers);
    if d in batch {
      var k :| 0 <= k < |batch| && batch[k] == d;
      assert IsCandidate(customers, norm, batch[k]);
      var i, j :| 0 <= i < j < |customers| && Likeness(customers[i], customers[j], norm).Some?
          && d == Candidate(customers, norm, i, j);
      assert refs[i] == d.incoming && refs[j] == d.existing.value;
      assert i == n;
      RefIsTruthy(customers[j], j);
    } else {
      assert MatchesSomewhere(customers, |customers|, records, lower, d);
    }
  }

  lemma RefIsTruthy(c: Customer, index: nat)
    ensures CustomerRef(c, index) != ""
  {
  }

  lemma {:induction false} TargetComesFromCandidate(dups: seq<Duplicate>, kind: EntityKind, r: string)
      returns (d: Duplicate)
    requires r in Targets(dups, kind)
    ensures d in dups && d.kind == kind && Merges(ActionOf(d))
    ensures d.incoming == r && Targets(dups, kind)[r] == TargetOf(d)
  {
    var last, before := dups[|dups| - 1], dups[..|dups| - 1];
    if last.kind == kind && Merges(ActionOf(last)) && last.incoming == r {
      d := last;
    } else {
      d := TargetComesFromCandidate(before, kind, r);
    }
  }

  /** Rows that bring nothing new to row `k` leave it as it is. */
  lemma {:induction false} NothingNewIsAbsorbed<T>(
    rows: seq<T>, refs: seq<string>, skip: set<string>, targets: map<string, string>, combine: Combine<T>, k: nat,
        n: nat)
    requires |rows| == |refs| && k < |rows| && n <= |rows|
    requires forall m :: k < m < |refs| && refs[m] in targets && targets[refs[m]] == refs[k] ==>
               combine(rows[k], rows[m]) == rows[k]
    ensures Absorbed(rows, refs, skip, targets, combine, k, n) == rows[k]
    decreases n
  {
    if n > k + 1 { NothingNewIsAbsorbed(rows, refs, skip, targets, combine, k, n - 1); }
  }

  lemma {:induction false} NothingIsAbsorbed<T>(
    rows: seq<T>, refs: seq<string>, skip: set<string>, targets: map<string, string>, combine: Combine<T>, k: nat,
        n: nat)
    requires |rows| == |refs| && k < |rows| && n <= |rows|
    requires forall m :: 0 <= m < |refs| && refs[m] in targets ==> targets[refs[m]] !in refs[..m]
    ensures Absorbed(rows, refs, skip, targets, combine, k, n) == rows[k]
  {
    forall m | k < m < |refs| && refs[m] in targets
      ensures targets[refs[m]] != refs[k]
    {
      assert refs[k] in refs[..m];
    }
    NothingNewIsAbsorbed(rows, refs, skip, targets, combine, k, n);
  }

  /** No candidate names, as the row that is there already, one that comes before its incoming row. */
  ghost predicate PointForward(customers: seq<Customer>, dups: seq<Duplicate>) {
    forall d, n :: d in dups && d.kind.CustomerKind? && 0 <= n < |customers| && d.incoming == Refs(customers)[n] ==>
      TargetOf(d) !in Refs(customers)[..n]
  }

  lemma DetectedPointForward(
    customers: seq<Customer>, norm: Norm, records: seq<Record>, lower: Norm,
    batch: seq<Duplicate>, store: seq<Duplicate>)
    requires Distinct(Refs(customers)) && FreshIds(records, Refs(customers))
    requires ExactlyThePairs(customers, norm, batch) && ExactlyTheMatches(customers, records, lower, store)
    ensures PointForward(customers, batch + store)
  {
    forall d, n | d in batch + store && 0 <= n < |customers| && d.incoming == Refs(customers)[n]
      ensures TargetOf(d) !in Refs(customers)[..n]
    {
      TargetsComeLater(customers, norm, records, lower, batch, store, d, n);
      assert Refs(customers)[..n] <= Refs(customers)[..n + 1];
    }
  }

  lemma {:induction false} DecidedPointForward(customers: seq<Customer>, found: seq<Duplicate>, decided: seq<Duplicate>)
    requires PointForward(customers, found) && Decided(found, decided)
    ensures PointForward(customers, decided)
  {
    forall d, n | d in decided && d.kind.CustomerKind? && 0 <= n < |customers| && d.incoming == Refs(customers)[n]
      ensures TargetOf(d) !in Refs(customers)[..n]
    {
      var x :| 0 <= x < |decided| && decided[x] == d;
      assert found[x] in found;
    }
  }

  /** Row `k` as the decided candidates leave it. */
  function RowLeft(customers: seq<Customer>, dups: seq<Duplicate>, k: nat): Customer
    requires k < |customers|
  {
    Absorbed(customers, Refs(customers), LeftOut(dups, CustomerKind), Targets(dups, CustomerKind), MergeCustomer, k,
             |customers|)
  }

  lemma ForwardCombinesNothing(customers: seq<Customer>, dups: seq<Duplicate>, k: nat)
    requires PointForward(customers, dups) && k < |customers|
    ensures RowLeft(customers, dups, k) == customers[k]
  {
    var refs, targets := Refs(customers), Targets(dups, CustomerKind);
    forall m | 0 <= m < |refs| && refs[m] in targets
      ensures targets[refs[m]] !in refs[..m]
    {
      var d := TargetComesFromCandidate(dups, CustomerKind, refs[m]);
    }
    NothingIsAbsorbed(customers, refs, LeftOut(dups, CustomerKind), targets, MergeCustomer, k, |customers|);
  }

  /**
   Whatever is decided about the candidates detection finds, no field of one row ever reaches
   another: the rows that are kept come out as they went in, and a row resolved MERGE is lost.
   */
  lemma {:induction false} NoDecisionCombinesRows(
    customers: seq<Customer>, norm: Norm, records: seq<Record>, lower: Norm,
    batch: seq<Duplicate>, store: seq<Duplicate>, decided: seq<Duplicate>, k: nat)
    requires Distinct(Refs(customers)) && FreshIds(records, Refs(customers))
    requires ExactlyThePairs(customers, norm, batch) && ExactlyTheMatches(customers, records, lower, store)
    requires Decided(batch + store, decided) && k < |customers|
    ensures Absorbed(customers, Refs(customers), LeftOut(decided, CustomerKind), Targets(decided, CustomerKind),
                     MergeCustomer, k, |customers|) == customers[k]
  {
    DetectedPointForward(customers, norm, records, lower, batch, store);
    DecidedPointForward(customers, batch + store, decided);
    ForwardCombinesNothing(customers, decided, k);
  }

  /** Candidate `d` names the earlier row `k` for the incoming row `n`, which has something row `k` lacks. */
  predicate BringsSomething(customers: seq<Customer>, d: Duplicate, k: nat, n: nat)
    requires k < n < |customers|
  {
    && d.kind.CustomerKind? && d.incoming == Refs(customers)[n] && TargetOf(d) == Refs(customers)[k]
    && MergeCustomer(customers[k], customers[n]) != customers[k]
  }

  ghost predicate ChangesKeptRow(customers: seq<Customer>, decided: seq<Duplicate>, k: nat)
    requires k < |customers|
  {
    Refs(customers)[k] !in LeftOut(decided, CustomerKind) && RowLeft(customers, decided, k) != customers[k]
  }

  /**
   Of any batch and any candidates: some decisions change a kept row exactly when some candidate names an earlier row
   that lacks something the incoming row has.
   */
  lemma DecisionsCombineRowsExactlyWhen(customers: seq<Customer>, found: seq<Duplicate>)
    requires Distinct(Refs(customers))
    ensures (exists decided, k ::
               Decided(found, decided) && 0 <= k < |customers| && ChangesKeptRow(customers, decided, k))
            <==> exists d, k, n :: d in found && 0 <= k < n < |customers| && BringsSomething(customers, d, k, n)
  {
    if decided, k :| Decided(found, decided) && 0 <= k < |customers| && ChangesKeptRow(customers, decided, k) {
      ChangeHasACandidate(customers, found, decided, k);
    }
    if d, k, n :| d in found && 0 <= k < n < |customers| && BringsSomething(customers, d, k, n) {
      var x :| 0 <= x < |found| && found[x] == d;
      MergingOneChanges(customers, found, x, k, n);
    }
  }

  lemma ChangeHasACandidate(customers: seq<Customer>, found: seq<Duplicate>, decided: seq<Duplicate>, k: nat)
    requires Decided(found, decided) && k < |customers| && RowLeft(customers, decided, k) != customers[k]
    ensures exists d, n :: d in found && k < n < |customers| && BringsSomething(customers, d, k, n)
  {
    var refs, skip, targets := Refs(customers), LeftOut(decided, CustomerKind), Targets(decided, CustomerKind);
    if forall m :: k < m < |refs| && refs[m] in targets && targets[refs[m]] == refs[k] ==>
        MergeCustomer(customers[k], customers[m]) == customers[k]
    {
      NothingNewIsAbsorbed(customers, refs, skip, targets, MergeCustomer, k, |customers|);
    } else {
      var m :| k < m < |refs| && refs[m] in targets && targets[refs[m]] == refs[k]
          && MergeCustomer(customers[k], customers[m]) != customers[k];
      var d := TargetComesFromCandidate(decided, CustomerKind, refs[m]);
      var x :| 0 <= x < |decided| && decided[x] == d;
      assert found[x] in found && BringsSomething(customers, found[x], k, m);
    }
  }

  /** Candidate `x` is merged; every other incoming row is kept. */
  function MergingOne(found: seq<Duplicate>, x: nat): seq<Duplicate> {
    seq(|found|, y requires 0 <= y < |found| =>
      found[y].(resolvedAction := Some(if y == x then MergeRows else KeepIncoming), resolved := true))
  }

  lemma MergingOneChanges(customers: seq<Customer>, found: seq<Duplicate>, x: nat, k: nat, n: nat)
    requires Distinct(Refs(customers)) && x < |found| && k < n < |customers|
    requires BringsSomething(customers, found[x], k, n)
    ensures Decided(found, MergingOne(found, x)) && ChangesKeptRow(customers, MergingOne(found, x), k)
  {
    var decided, refs := MergingOne(found, x), Refs(customers);
    var skip, targets := LeftOut(decided, CustomerKind), Targets(decided, CustomerKind);
    assert decided[x] in decided;
    assert forall d :: d in decided && LeavesOut(ActionOf(d)) ==> d == decided[x];
    TargetIsSet(decided, x);
    forall r | r in targets
      ensures r == refs[n] && targets[r] == refs[k]
    {
      var d := TargetComesFromCandidate(decided, CustomerKind, r);
    }
    AbsorbsOne(customers, refs, skip, targets, MergeCustomer, k, n, |customers|);
  }

  lemma {:induction false} TargetIsSet(dups: seq<Duplicate>, x: nat)
    requires x < |dups| && dups[x].kind.CustomerKind? && Merges(ActionOf(dups[x]))
    ensures dups[x].incoming in Targets(dups, CustomerKind)
  {
    if x < |dups| - 1 { TargetIsSet(dups[..|dups| - 1], x); }
  }

  lemma {:induction false} AbsorbsOne<T>(
    rows: seq<T>, refs: seq<string>, skip: set<string>, targets: map<string, string>, combine: Combine<T>, k: nat,
        m: nat, n: nat)
    requires |rows| == |refs| && Distinct(refs) && k < m < |rows| && n <= |rows|
    requires refs[m] in skip && refs[m] in targets && targets[refs[m]] == refs[k]
    requires forall r :: r in targets ==> r == refs[m]
    ensures Absorbed(rows, refs, skip, targets, combine, k, n) == if n <= m then rows[k] else combine(rows[k], rows[m])
    decreases n
  {
    if n > k + 1 { AbsorbsOne(rows, refs, skip, targets, combine, k, m, n - 1); }
  }

  method ApplyToCustomers(customers: seq<Customer>, decided: seq<Duplicate>) returns (kept: seq<Customer>)
    requires Distinct(Refs(customers))
    ensures var ks := KeptBelow(Refs(customers), LeftOut(decided, CustomerKind), |customers|);
            && |kept| == |ks|
            && forall x :: 0 <= x < |kept| ==>
                 kept[x] == Absorbed(customers, Refs(customers), LeftOut(decided, CustomerKind),
                                     Targets(decided, CustomerKind), MergeCustomer, ks[x], |customers|)
  {
    var skipCustomers, _, customerMerges, _ := PlanResolutions(decided);
    kept := WalkRows(customers, Refs(customers), skipCustomers, customerMerges, MergeCustomer);
  }

  // ---------------------------------------------------------------- an automatic run

  /** `auto_apply`: every open candidate of confidence 0.7 or more gets its suggested action. */
  function Auto(d: Duplicate): Duplicate {
    if !d.resolved && d.confidence >= 70 then d.(resolvedAction := Some(d.suggested), resolved := true) else d
  }

  method AutoResolve(dups: seq<Duplicate>) returns (decided: seq<Duplicate>)
    ensures |decided| == |dups| && forall k :: 0 <= k < |dups| ==> decided[k] == Auto(dups[k])
  {
    decided := dups;
    for k := 0 to |dups|
      invariant |decided| == |dups|
      invariant forall x :: 0 <= x < |dups| ==> decided[x] == if x < k then Auto(dups[x]) else dups[x]
    {
      if !decided[k].resolved && decided[k].confidence >= 70 {
        decided := decided[k := decided[k].(resolvedAction := Some(decided[k].suggested), resolved := true)];
      }
    }
  }

  /** Same phone, same e-mail, or the same name with no phone on either side. */
  predicate Alike(a: Customer, b: Customer, norm: Norm) {
    || Share(PhoneKey(a), PhoneKey(b))
    || Share(EmailKey(a), EmailKey(b))
    || (Share(NameKey(a, norm), NameKey(b, norm)) && PhoneKey(a).None? && PhoneKey(b).None?)
  }

  /** A row is dropped for a later row like it, or for a record of an earlier import. */
  ghost predicate Dropped(customers: seq<Customer>, norm: Norm, records: seq<Record>, lower: Norm, i: nat)
    requires i < |customers|
  {
    || (exists j :: i < j < |customers| && Alike(customers[i], customers[j], norm))
    || InStore(customers[i], records, lower)
  }

  /** As detection leaves it: about customers, undecided, to be merged. */
  predicate Fresh(d: Duplicate) {
    d.kind.CustomerKind? && d.suggested.MergeRows? && d.resolvedAction.None? && !d.resolved
  }

  /** An automatic run leaves out the incoming row of every candidate of confidence 0.7 or more. */
  lemma AutoLeavesOut(found: seq<Duplicate>, decided: seq<Duplicate>, r: string)
    requires forall d :: d in found ==> Fresh(d)
    requires |decided| == |found| && forall k :: 0 <= k < |decided| ==> decided[k] == Auto(found[k])
    ensures r in LeftOut(decided, CustomerKind) <==> exists d :: d in found && d.incoming == r && d.confidence >= 70
  {
    if r in LeftOut(decided, CustomerKind) {
      var d :| d in decided && d.kind == CustomerKind && LeavesOut(ActionOf(d)) && d.incoming == r;
      var k :| 0 <= k < |decided| && decided[k] == d;
      assert found[k] in found && found[k].incoming == r && found[k].confidence >= 70;
    }
    if d :| d in found && d.incoming == r && d.confidence >= 70 {
      var k :| 0 <= k < |found| && found[k] == d;
      assert decided[k] in decided && decided[k].incoming == r;
    }
  }

  lemma DroppedRowHasACandidate(
    customers: seq<Customer>, norm: Norm, records: seq<Record>, lower: Norm,
    batch: seq<Duplicate>, store: seq<Duplicate>, i: nat) returns (d: Duplicate)
    requires i < |customers| && Dropped(customers, norm, records, lower, i)
    requires ExactlyThePairs(customers, norm, batch) && ExactlyTheMatches(customers, records, lower, store)
    ensures d in batch + store && d.incoming == Refs(customers)[i] && d.confidence >= 70
  {
    if j :| i < j < |customers| && Alike(customers[i], customers[j], norm) {
      d := Candidate(customers, norm, i, j);
      assert d in batch;
    } else {
      var r :| r in records && Matches(customers[i], r, lower);
      d := StoreCandidate(customers[i], i, r);
      assert MatchesSomewhere(customers, |customers|, records, lower, d);
    }
  }

  lemma CandidateMeansDropped(
    customers: seq<Customer>, norm: Norm, records: seq<Record>, lower: Norm,
    batch: seq<Duplicate>, store: seq<Duplicate>, d: Duplicate, i: nat)
    requires Distinct(Refs(customers)) && i < |customers|
    requires ExactlyThePairs(customers, norm, batch) && ExactlyTheMatches(customers, records, lower, store)
    requires d in batch + store && d.incoming == Refs(customers)[i] && d.confidence >= 70
    ensures Dropped(customers, norm, records, lower, i)
  {
    if d in batch {
      CandidateIsAPair(customers, norm, batch, d, i);
    } else {
      CandidateIsAMatch(customers, records, lower, store, d, i);
    }
  }

  lemma CandidateIsAPair(customers: seq<Customer>, norm: Norm, batch: seq<Duplicate>, d: Duplicate, i: nat)
    requires Distinct(Refs(customers)) && i < |customers|
    requires ExactlyThePairs(customers, norm, batch) && d in batch
    requires d.incoming == Refs(customers)[i] && d.confidence >= 70
    ensures exists b :: i < b < |customers| && Alike(customers[i], customers[b], norm)
  {
    var refs := Refs(customers);
    var k :| 0 <= k < |batch| && batch[k] == d;
    assert IsCandidate(customers, norm, batch[k]);
    var a, b :| 0 <= a < b < |customers| && Likeness(customers[a], customers[b], norm).Some?
        && d == Candidate(customers, norm, a, b);
    assert refs[a] == refs[i];
    assert Alike(customers[i], customers[b], norm);
  }

  lemma CandidateIsAMatch(
    customers: seq<Customer>, records: seq<Record>, lower: Norm, store: seq<Duplicate>, d: Duplicate, i: nat)
    requires Distinct(Refs(customers)) && i < |customers|
    requires ExactlyTheMatches(customers, records, lower, store) && d in store && d.incoming == Refs(customers)[i]
    ensures exists r :: r in records && Matches(customers[i], r, lower)
  {
    var refs := Refs(customers);
    assert MatchesSomewhere(customers, |customers|, records, lower, d);
    var a, r :| 0 <= a < |customers| && r in records && Matches(customers[a], r, lower)
        && d == StoreCandidate(customers[a], a, r);
    assert refs[a] == refs[i];
  }

  lemma FoundAreFresh(
    customers: seq<Customer>, norm: Norm, records: seq<Record>, lower: Norm, batch: seq<Duplicate>,
        store: seq<Duplicate>)
    requires ExactlyThePairs(customers, norm, batch) && ExactlyTheMatches(customers, records, lower, store)
    ensures forall d :: d in batch + store ==> Fresh(d)
  {
    forall d | d in batch + store
      ensures Fresh(d)
    {
      if d in batch {
        var k :| 0 <= k < |batch| && batch[k] == d;
        assert IsCandidate(customers, norm, batch[k]);
      } else {
        assert MatchesSomewhere(customers, |customers|, records, lower, d);
      }
    }
  }

  lemma AutoDropsExactly(
    customers: seq<Customer>, norm: Norm, records: seq<Record>, lower: Norm,
    batch: seq<Duplicate>, store: seq<Duplicate>, decided: seq<Duplicate>, i: nat)
    requires Distinct(Refs(customers)) && i < |customers|
    requires ExactlyThePairs(customers, norm, batch) && ExactlyTheMatches(customers, records, lower, store)
    requires |decided| == |batch + store| && forall k :: 0 <= k < |decided| ==> decided[k] == Auto((batch + store)[k])
    ensures Refs(customers)[i] in LeftOut(decided, CustomerKind) <==> Dropped(customers, norm, records, lower, i)
  {
    FoundAreFresh(customers, norm, records, lower, batch, store);
    AutoLeavesOut(batch + store, decided, Refs(customers)[i]);
    if Refs(customers)[i] in LeftOut(decided, CustomerKind) {
      var d :| d in batch + store && d.incoming == Refs(customers)[i] && d.confidence >= 70;
      CandidateMeansDropped(customers, norm, records, lower, batch, store, d, i);
    }
    if Dropped(customers, norm, records, lower, i) {
      var d := DroppedRowHasACandidate(customers, norm, records, lower, batch, store, i);
    }
  }

  /** The rows of the first `n` that are not dropped, in order. */
  ghost function Undropped(customers: seq<Customer>, norm: Norm, records: seq<Record>, lower: Norm,
      n: nat): seq<Customer>
    requires n <= |customers|
  {
    if n == 0 then []
    else
      Undropped(customers, norm, records, lower, n - 1)
      + if Dropped(customers, norm, records, lower, n - 1) then [] else [customers[n - 1]]
  }

  lemma {:induction false} KeptAreUndropped(
    customers: seq<Customer>, norm: Norm, records: seq<Record>, lower: Norm, refs: seq<string>, skip: set<string>,
        n: nat)
    requires n <= |customers| == |refs|
    requires forall i :: 0 <= i < n ==> (refs[i] in skip <==> Dropped(customers, norm, records, lower, i))
    ensures var ks, rows := KeptBelow(refs, skip, n), Undropped(customers, norm, records, lower, n);
            |rows| == |ks| && forall x :: 0 <= x < |ks| ==> rows[x] == customers[ks[x]]
  {
    hide Dropped;
    if n > 0 { KeptAreUndropped(customers, norm, records, lower, refs, skip, n - 1); }
  }

  /**
   An automatic run keeps, unchanged and in order, exactly the rows that no later row of the
   batch is like and no record matches.
   */
  method AutoApply(customers: seq<Customer>, norm: Norm, records: seq<Record>, lower: Norm)
      returns (kept: seq<Customer>)
    requires Distinct(Refs(customers)) && FreshIds(records, Refs(customers))
    ensures kept == Undropped(customers, norm, records, lower, |customers|)
  {
    hide Dropped;
    hide Undropped;
    hide KeptBelow;
    hide Absorbed;
    var batch := DetectInBatch(customers, norm);
    var store := DetectAgainstStore(customers, records, lower);
    var decided := AutoResolve(batch + store);
    kept := ApplyToCustomers(customers, decided);
    ghost var refs, skip := Refs(customers), LeftOut(decided, CustomerKind);
    forall i | 0 <= i < |customers|
      ensures refs[i] in skip <==> Dropped(customers, norm, records, lower, i)
      ensures Absorbed(customers, refs, skip, Targets(decided, CustomerKind), MergeCustomer, i, |customers|) ==
          customers[i]
    {
      AutoDropsExactly(customers, norm, records, lower, batch, store, decided, i);
      NoDecisionCombinesRows(customers, norm, records, lower, batch, store, decided, i);
    }
    KeptAreUndropped(customers, norm, records, lower, refs, skip, |customers|);
  }

  /** No two rows that an automatic run keeps are alike. */
  lemma KeptRowsAreUnlike(customers: seq<Customer>, norm: Norm, records: seq<Record>, lower: Norm, i: nat, j: nat)
    requires i < |customers| && j < |customers| && i != j
    requires !Dropped(customers, norm, records, lower, i) && !Dropped(customers, norm, records, lower, j)
    ensures !Alike(customers[i], customers[j], norm)
  {
    if j < i { assert Alike(customers[i], customers[j], norm) == Alike(customers[j], customers[i], norm); }
  }

  /** A rising path of rows, each like the next. */
  ghost predicate PathOfLikes(customers: seq<Customer>, norm: Norm, path: seq<nat>) {
    && path != [] && Rising(path) && (forall x :: 0 <= x < |path| ==> path[x] < |customers|)
    && forall x :: 0 <= x < |path| - 1 ==> Alike(customers[path[x]], customers[path[x + 1]], norm)
  }

  /** Every row is connected, by rows each like the next, to a kept row or to one that a record stands for. */
  lemma {:induction false} DroppedRowsReachAKeptOne(
    customers: seq<Customer>, norm: Norm, records: seq<Record>, lower: Norm, i: nat)
    returns (path: seq<nat>)
    requires i < |customers|
    ensures PathOfLikes(customers, norm, path) && path[0] == i
    ensures var last := path[|path| - 1];
            !Dropped(customers, norm, records, lower, last) || InStore(customers[last], records, lower)
    decreases |customers| - i
  {
    if !Dropped(customers, norm, records, lower, i) || InStore(customers[i], records, lower) {
      path := [i];
    } else {
      var j :| i < j < |customers| && Alike(customers[i], customers[j], norm);
      var rest := DroppedRowsReachAKeptOne(customers, norm, records, lower, j);
      path := [i] + rest;
      assert forall x :: 0 < x < |path| ==> path[x] == rest[x - 1];
    }
  }
}
