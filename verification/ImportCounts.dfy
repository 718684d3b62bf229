/**
 Counting what an apply writes.

 Every row of the applied batch is counted once, as imported or as failed, however the CRM and the
 record store behave; the merged and skipped counts, though, count candidates and not rows.
 */
module ImportCounts {
  import opened Wrappers
  import opened ImportModels
  import opened DuplicateDetection
  import opened DuplicateResolution

  datatype Kind =
    | Customers | Vehicles | Repairs | Invoices | Estimates | Communications | Appointments | Recommendations

  /** How writing one row goes: the CRM side raises, the record store raises, or both take it. */
  datatype Outcome = CrmRaises | StoreRaises | Taken

  datatype VehicleRow = VehicleRow(vin: string, externalId: Option<string>, outcome: Outcome)

  /** `inDirectory`: the vehicle directory knows the row's VIN from before. */
  datatype RepairRow = RepairRow(vin: Option<string>, vehicleExternalId: Option<string>, inDirectory: bool,
      outcome: Outcome)

  /** `linked`: a customer of this batch was found for the message. */
  datatype CommunicationRow = CommunicationRow(linked: bool, outcome: Outcome)

  datatype Batch = Batch(
    customers: seq<Outcome>, vehicles: seq<VehicleRow>, repairs: seq<RepairRow>,
    invoices: seq<Outcome>, estimates: seq<Outcome>, communications: seq<CommunicationRow>,
    appointments: seq<Outcome>, recommendations: seq<Outcome>)

  datatype Count = Count(imported: nat, failed: nat)

  type Upper = string -> string

  // ---------------------------------------------------------------- which rows get through

  /** The VINs (in upper case) and external ids under which this batch has put vehicles into the CRM. */
  datatype Links = Links(vins: set<string>, externalIds: set<string>)

  function Linked(links: Links, v: VehicleRow, upper: Upper): Links {
    if v.vin == "" || v.outcome.CrmRaises? then links
    else Links(links.vins + {upper(v.vin)},
               links.externalIds + if Truthy(v.externalId) then {v.externalId.value} else {})
  }

  function LinksOf(vehicles: seq<VehicleRow>, upper: Upper): Links {
    if vehicles == [] then Links({}, {})
    else Linked(LinksOf(vehicles[..|vehicles| - 1], upper), vehicles[|vehicles| - 1], upper)
  }

  predicate VehicleGetsThrough(v: VehicleRow) {
    v.vin != "" && v.outcome.Taken?
  }

  /** The vehicle a repair belongs to is known: from this batch or from the directory. */
  predicate Known(r: RepairRow, links: Links, upper: Upper) {
    || (Truthy(r.vin) && (upper(r.vin.value) in links.vins || r.inDirectory))
    || (Truthy(r.vehicleExternalId) && r.vehicleExternalId.value in links.externalIds)
  }

  predicate RepairGetsThrough(r: RepairRow, links: Links, upper: Upper, directory: bool) {
    directory && Known(r, links, upper) && r.outcome.Taken?
  }

  /** The test for repairs, once the vehicles are in. */
  function RepairTest(links: Links, upper: Upper, directory: bool): RepairRow -> bool {
    r => RepairGetsThrough(r, links, upper, directory)
  }

  predicate CustomerGetsThrough(o: Outcome) {
    o.Taken?
  }

  predicate CommunicationGetsThrough(c: CommunicationRow) {
    if c.linked then c.outcome.Taken? else !c.outcome.StoreRaises?
  }

  /**
   Which rows get through, of each kind: a customer both systems take; a vehicle with a VIN both take; a repair both
   take while there is a directory, and whose vehicle this batch or the directory knows; a message the record store
   takes, and the CRM if it is linked; a row of any other kind the record store takes.
   */
  lemma GettingThrough(o: Outcome, v: VehicleRow, r: RepairRow, c: CommunicationRow, links: Links, upper: Upper,
      directory: bool)
    ensures CustomerGetsThrough(o) <==> o == Taken
    ensures VehicleGetsThrough(v) <==> v.vin != "" && v.outcome == Taken
    ensures RepairGetsThrough(r, links, upper, directory) <==>
            && directory && r.outcome == Taken
            && (|| (r.vin.Some? && r.vin != Some("") && (r.inDirectory || upper(r.vin.value) in links.vins))
                || (r.vehicleExternalId.Some? && r.vehicleExternalId != Some("")
                    && r.vehicleExternalId.value in links.externalIds))
    ensures CommunicationGetsThrough(c) <==> c.outcome == Taken || (c.outcome == CrmRaises && !c.linked)
    ensures StoreTakes(o) <==> o == Taken || o == CrmRaises
  {
  }

  /** This batch knows the vehicles that have a VIN and that the CRM took, by VIN and by external id. */
  lemma {:induction false} LinksAre(vehicles: seq<VehicleRow>, upper: Upper, x: string)
    ensures x in LinksOf(vehicles, upper).vins <==> exists i ::
              && 0 <= i < |vehicles| && vehicles[i].vin != "" && vehicles[i].outcome != CrmRaises
              && upper(vehicles[i].vin) == x
    ensures x in LinksOf(vehicles, upper).externalIds <==> exists i ::
              && 0 <= i < |vehicles| && vehicles[i].vin != "" && vehicles[i].outcome != CrmRaises
              && vehicles[i].externalId == Some(x) && x != ""
  {
    if vehicles != [] {
      var front, last := vehicles[..|vehicles| - 1], |vehicles| - 1;
      LinksAre(front, upper, x);
      assert forall i :: 0 <= i < last ==> front[i] == vehicles[i];
      assert vehicles[last] == vehicles[|vehicles| - 1];
    }
  }

  function Tally<T>(rows: seq<T>, good: T -> bool): nat {
    if rows == [] then 0 else Tally(rows[..|rows| - 1], good) + if good(rows[|rows| - 1]) then 1 else 0
  }

  lemma {:induction false} TallyOneMore<T>(rows: seq<T>, i: nat, good: T -> bool)
    requires i < |rows|
    ensures Tally(rows[..i + 1], good) == Tally(rows[..i], good) + if good(rows[i]) then 1 else 0
  {
    assert rows[..i + 1][..i] == rows[..i];
  }

  lemma {:induction false} TallyBounded<T>(rows: seq<T>, good: T -> bool)
    ensures Tally(rows, good) <= |rows|
  {
    if rows != [] { TallyBounded(rows[..|rows| - 1], good); }
  }

  /** How many rows of each kind are imported. */
  function Imported(b: Batch, kind: Kind, upper: Upper, directory: bool): nat {
    match kind
    case Customers => Tally(b.customers, CustomerGetsThrough)
    case Vehicles => Tally(b.vehicles, VehicleGetsThrough)
    case Repairs => Tally(b.repairs, RepairTest(LinksOf(b.vehicles, upper), upper, directory))
    case Invoices => Tally(b.invoices, StoreTakes)
    case Estimates => Tally(b.estimates, StoreTakes)
    case Communications => Tally(b.communications, CommunicationGetsThrough)
    case Appointments => Tally(b.appointments, StoreTakes)
    case Recommendations => Tally(b.recommendations, StoreTakes)
  }

  /** Kinds that only go to the record store. */
  predicate StoreTakes(o: Outcome) {
    !o.StoreRaises?
  }

  function Size(b: Batch, kind: Kind): nat {
    match kind
    case Customers => |b.customers|
    case Vehicles => |b.vehicles|
    case Repairs => |b.repairs|
    case Invoices => |b.invoices|
    case Estimates => |b.estimates|
    case Communications => |b.communications|
    case Appointments => |b.appointments|
    case Recommendations => |b.recommendations|
  }

  // ---------------------------------------------------------------- the writer

  class Writer {
    var counts: map<Kind, Count>
    var links: Links
    const upper: Upper

    constructor (upper: Upper)
      ensures this.upper == upper && links == Links({}, {})
      ensures forall k: Kind :: k in counts && counts[k] == Count(0, 0)
    {
      this.upper := upper;
      links := Links({}, {});
      counts := map k | k in AllKinds :: Count(0, 0);
      new;
      forall k: Kind
        ensures k in counts && counts[k] == Count(0, 0)
      {
        EveryKindIsListed(k);
      }
    }

    ghost predicate Ready()
      reads this
    {
      forall k: Kind :: k in counts
    }

    /** Writes the staging record; a failure is counted here and goes no further. */
    method Persist(kind: Kind, outcome: Outcome)
      requires Ready()
      modifies this`counts
      ensures Ready()
      ensures counts == old(counts)[kind :=
        if outcome.StoreRaises? then Count(old(counts)[kind].imported, old(counts)[kind].failed + 1)
        else Count(old(counts)[kind].imported + 1, old(counts)[kind].failed)]
    {
      var c := counts[kind];
      if outcome.StoreRaises? {
        counts := counts[kind := c.(failed := c.failed + 1)];
      } else {
        counts := counts[kind := c.(imported := c.imported + 1)];
      }
    }

    method RecordIssue(kind: Kind)
      requires Ready()
      modifies this`counts
      ensures Ready()
      ensures counts == old(counts)[kind := Count(old(counts)[kind].imported, old(counts)[kind].failed + 1)]
    {
      counts := counts[kind := counts[kind].(failed := counts[kind].failed + 1)];
    }

    method PersistCustomers(rows: seq<Outcome>)
      requires Ready() && counts[Customers] == Count(0, 0)
      modifies this`counts
      ensures Ready() && Counted(old(counts), counts, Customers, rows, CustomerGetsThrough)
    {
      var i := 0;
      while i < |rows|
        invariant 0 <= i <= |rows| && Ready() && Counted(old(counts), counts, Customers, rows[..i], CustomerGetsThrough)
      {
        TallyOneMore(rows, i, CustomerGetsThrough);
        if rows[i].CrmRaises? { RecordIssue(Customers); } else { Persist(Customers, rows[i]); }
        i := i + 1;
      }
      assert rows[..i] == rows;
    }

    method PersistVehicles(rows: seq<VehicleRow>)
      requires Ready() && counts[Vehicles] == Count(0, 0) && links == Links({}, {})
      modifies this`counts, this`links
      ensures Ready() && Counted(old(counts), counts, Vehicles, rows, VehicleGetsThrough)
      ensures links == LinksOf(rows, upper)
    {
      var i := 0;
      while i < |rows|
        invariant 0 <= i <= |rows| && Ready() && Counted(old(counts), counts, Vehicles, rows[..i], VehicleGetsThrough)
        invariant links == LinksOf(rows[..i], upper)
      {
        var v := rows[i];
        TallyOneMore(rows, i, VehicleGetsThrough);
        assert rows[..i + 1][..i] == rows[..i];
        i := i + 1;
        if v.vin == "" { RecordIssue(Vehicles); continue; }
        if v.outcome.CrmRaises? {
          RecordIssue(Vehicles);
        } else {
          links := links.(vins := links.vins + {upper(v.vin)});
          if Truthy(v.externalId) { links := links.(externalIds := links.externalIds + {v.externalId.value}); }
          Persist(Vehicles, v.outcome);
        }
      }
      assert rows[..i] == rows;
    }

    method PersistRepairs(rows: seq<RepairRow>, directory: bool)
      requires Ready() && counts[Repairs] == Count(0, 0)
      modifies this`counts
      ensures Ready() && Counted(old(counts), counts, Repairs, rows, RepairTest(links, upper, directory))
    {
      ghost var good := RepairTest(links, upper, directory);
      var i := 0;
      while i < |rows|
        invariant 0 <= i <= |rows| && Ready() && Counted(old(counts), counts, Repairs, rows[..i], good)
      {
        var r := rows[i];
        TallyOneMore(rows, i, good);
        i := i + 1;
        var vehicle := Truthy(r.vin) && (upper(r.vin.value) in links.vins || (directory && r.inDirectory));
        if Truthy(r.vehicleExternalId) && r.vehicleExternalId.value in links.externalIds { vehicle := true; }
        if !directory { RecordIssue(Repairs); continue; }
        if !vehicle { RecordIssue(Repairs); continue; }
        if r.outcome.CrmRaises? { RecordIssue(Repairs); } else { Persist(Repairs, r.outcome); }
      }
      assert rows[..i] == rows;
    }

    method PersistPlain(kind: Kind, rows: seq<Outcome>)
      requires Ready() && counts[kind] == Count(0, 0)
      modifies this`counts
      ensures Ready() && Counted(old(counts), counts, kind, rows, StoreTakes)
    {
      var i := 0;
      while i < |rows|
        invariant 0 <= i <= |rows| && Ready() && Counted(old(counts), counts, kind, rows[..i], StoreTakes)
      {
        TallyOneMore(rows, i, StoreTakes);
        Persist(kind, rows[i]);
        i := i + 1;
      }
      assert rows[..i] == rows;
    }

    method PersistCommunications(rows: seq<CommunicationRow>)
      requires Ready() && counts[Communications] == Count(0, 0)
      modifies this`counts
      ensures Ready() && Counted(old(counts), counts, Communications, rows, CommunicationGetsThrough)
    {
      var i := 0;
      while i < |rows|
        invariant 0 <= i <= |rows| && Ready()
            && Counted(old(counts), counts, Communications, rows[..i], CommunicationGetsThrough)
      {
        var c := rows[i];
        TallyOneMore(rows, i, CommunicationGetsThrough);
        i := i + 1;
        if !c.linked { Persist(Communications, c.outcome); continue; }
        if c.outcome.CrmRaises? { RecordIssue(Communications); } else { Persist(Communications, c.outcome); }
      }
      assert rows[..i] == rows;
    }

    /** Of every kind, exactly the rows that get through are imported and all others have failed. */
    method PersistBatch(b: Batch, directory: bool)
      requires links == Links({}, {}) && forall k: Kind :: k in counts && counts[k] == Count(0, 0)
      modifies this
      ensures forall k: Kind :: k in counts
                && counts[k].imported == Imported(b, k, upper, directory)
                && counts[k].imported + counts[k].failed == Size(b, k)
      ensures Sums(counts, Customers, |b.customers|) && Sums(counts, Vehicles, |b.vehicles|)
      ensures Sums(counts, Repairs, |b.repairs|) && Sums(counts, Invoices, |b.invoices|)
      ensures Sums(counts, Estimates, |b.estimates|) && Sums(counts, Communications, |b.communications|)
      ensures Sums(counts, Appointments, |b.appointments|) && Sums(counts, Recommendations, |b.recommendations|)
      ensures counts[Customers].imported == Tally(b.customers, CustomerGetsThrough)
      ensures counts[Vehicles].imported == Tally(b.vehicles, VehicleGetsThrough)
      ensures counts[Repairs].imported == Tally(b.repairs, RepairTest(LinksOf(b.vehicles, upper), upper, directory))
      ensures counts[Invoices].imported == Tally(b.invoices, StoreTakes)
      ensures counts[Estimates].imported == Tally(b.estimates, StoreTakes)
      ensures counts[Communications].imported == Tally(b.communications, CommunicationGetsThrough)
      ensures counts[Appointments].imported == Tally(b.appointments, StoreTakes)
      ensures counts[Recommendations].imported == Tally(b.recommendations, StoreTakes)
    {
      hide Tally;
      hide RepairTest;
      hide LinksOf;
      hide StoreTakes;
      hide CustomerGetsThrough;
      hide VehicleGetsThrough;
      hide CommunicationGetsThrough;
      PersistCustomers(b.customers);
      PersistVehicles(b.vehicles);
      PersistRepairs(b.repairs, directory);
      PersistPlain(Invoices, b.invoices);
      PersistPlain(Estimates, b.estimates);
      PersistCommunications(b.communications);
      PersistPlain(Appointments, b.appointments);
      PersistPlain(Recommendations, b.recommendations);
      KindByKind(counts, b, upper, directory);
    }
  }

  /** Imported and failed rows of a kind come to this many. */
  predicate Sums(counts: map<Kind, Count>, kind: Kind, size: nat) {
    kind in counts && counts[kind].imported + counts[kind].failed == size
  }

  lemma KindByKind(counts: map<Kind, Count>, b: Batch, upper: Upper, directory: bool)
    requires Sums(counts, Customers, |b.customers|) && Sums(counts, Vehicles, |b.vehicles|)
    requires Sums(counts, Repairs, |b.repairs|) && Sums(counts, Invoices, |b.invoices|)
    requires Sums(counts, Estimates, |b.estimates|) && Sums(counts, Communications, |b.communications|)
    requires Sums(counts, Appointments, |b.appointments|) && Sums(counts, Recommendations, |b.recommendations|)
    requires counts[Customers].imported == Tally(b.customers, CustomerGetsThrough)
    requires counts[Vehicles].imported == Tally(b.vehicles, VehicleGetsThrough)
    requires counts[Repairs].imported == Tally(b.repairs, RepairTest(LinksOf(b.vehicles, upper), upper, directory))
    requires counts[Invoices].imported == Tally(b.invoices, StoreTakes)
    requires counts[Estimates].imported == Tally(b.estimates, StoreTakes)
    requires counts[Communications].imported == Tally(b.communications, CommunicationGetsThrough)
    requires counts[Appointments].imported == Tally(b.appointments, StoreTakes)
    requires counts[Recommendations].imported == Tally(b.recommendations, StoreTakes)
    ensures forall k: Kind :: k in counts
              && counts[k].imported == Imported(b, k, upper, directory)
              && counts[k].imported + counts[k].failed == Size(b, k)
  {
    hide Tally;
    forall k: Kind
      ensures k in counts && counts[k].imported == Imported(b, k, upper, directory)
          && counts[k].imported + counts[k].failed == Size(b, k)
    {
      match k {
        case Customers => case Vehicles => case Repairs => case Invoices =>
        case Estimates => case Communications => case Appointments => case Recommendations =>
      }
    }
  }

  const AllKinds: set<Kind> :=
    {Customers, Vehicles, Repairs, Invoices, Estimates, Communications, Appointments, Recommendations}

  lemma EveryKindIsListed(k: Kind)
    ensures k in AllKinds
  {
    match k
    case Customers => case Vehicles => case Repairs => case Invoices =>
    case Estimates => case Communications => case Appointments => case Recommendations =>
  }

  /** Only `kind` has been counted: each row once, the good ones as imported. */
  ghost predicate Counted<T>(before: map<Kind, Count>, after: map<Kind, Count>, kind: Kind, rows: seq<T>,
                             good: T -> bool)
  {
    && kind in before && kind in after
    && after == before[kind := after[kind]]
    && after[kind].imported == Tally(rows, good)
    && after[kind].imported + after[kind].failed == |rows|
  }

  // ---------------------------------------------------------------- rows that never reach the writer

  /** Written rows and left-out rows together are the rows of the original batch. */
  lemma {:induction false} LeftOutRowsAreAccountedFor(refs: seq<string>, skip: set<string>, n: nat)
    requires n <= |refs|
    ensures |KeptBelow(refs, skip, n)| + Tally(refs[..n], r => r in skip) == n
  {
    if n > 0 {
      LeftOutRowsAreAccountedFor(refs, skip, n - 1);
      TallyOneMore(refs, n - 1, r => r in skip);
    }
  }

  /** The merged and skipped counts of one kind: one for every decided candidate. */
  predicate CountsAsMerged(d: Duplicate, kind: EntityKind) {
    d.kind == kind && (d.resolvedAction == Some(MergeRows) || d.resolvedAction == Some(KeepExisting))
  }

  predicate CountsAsSkipped(d: Duplicate, kind: EntityKind) {
    d.kind == kind && d.resolvedAction == Some(Skip)
  }

  /** The incoming rows of the candidates that are counted, with repetitions. */
  function CountedRefs(dups: seq<Duplicate>, kind: EntityKind): seq<string> {
    if dups == [] then []
    else
      var d := dups[|dups| - 1];
      CountedRefs(dups[..|dups| - 1], kind) + if CountsAsMerged(d, kind) || CountsAsSkipped(d, kind) then [d.incoming]
          else []
  }

  lemma {:induction false} MergedAndSkippedAreCounted(dups: seq<Duplicate>, kind: EntityKind)
    ensures Tally(dups, d => CountsAsMerged(d, kind)) + Tally(dups, d => CountsAsSkipped(d, kind)) ==
        |CountedRefs(dups, kind)|
    ensures forall r :: r in CountedRefs(dups, kind) ==> exists d ::
        d in dups && d.incoming == r && (CountsAsMerged(d, kind) || CountsAsSkipped(d, kind))
    ensures forall d :: d in dups && (CountsAsMerged(d, kind) || CountsAsSkipped(d, kind)) ==>
        d.incoming in CountedRefs(dups, kind)
  {
    if dups != [] {
      var last, before := dups[|dups| - 1], dups[..|dups| - 1];
      MergedAndSkippedAreCounted(before, kind);
      assert dups == before + [last];
    }
  }

  /** As many distinct values as places exactly when no value comes twice. */
  lemma {:induction false} DistinctMeansAsMany(xs: seq<string>)
    ensures |set x | x in xs| <= |xs|
    ensures |set x | x in xs| == |xs| <==> Distinct(xs)
  {
    if xs != [] {
      var last, before := xs[|xs| - 1], xs[..|xs| - 1];
      DistinctMeansAsMany(before);
      assert xs == before + [last];
      assert (set x | x in xs) == (set x | x in before) + {last};
      if last in before {
        var i :| 0 <= i < |before| && before[i] == last;
        assert xs[i] == xs[|xs| - 1];
        assert (set x | x in xs) == (set x | x in before);
      } else {
        assert last !in (set x | x in before);
        assert forall i, j :: 0 <= i < j < |before| ==> xs[i] == before[i] && xs[j] == before[j];
      }
    }
  }

  /** The rows that are counted at all. */
  function CountedRows(dups: seq<Duplicate>, kind: EntityKind): set<string> {
    set r | r in CountedRefs(dups, kind)
  }

  /** Rows left out by a candidate of confidence 0.9 or more that nobody decided about: no counter sees them. */
  function LeftOutUncounted(dups: seq<Duplicate>, kind: EntityKind): set<string> {
    LeftOut(dups, kind) - CountedRows(dups, kind)
  }

  /** How many decided candidates come on top of the first one for their row. */
  function Repeats(dups: seq<Duplicate>, kind: EntityKind): int {
    |CountedRefs(dups, kind)| - |CountedRows(dups, kind)|
  }

  lemma CountedAreLeftOut(dups: seq<Duplicate>, kind: EntityKind)
    ensures CountedRows(dups, kind) <= LeftOut(dups, kind)
  {
    MergedAndSkippedAreCounted(dups, kind);
    forall r | r in CountedRefs(dups, kind)
      ensures r in LeftOut(dups, kind)
    {
      var d :| d in dups && d.incoming == r && (CountsAsMerged(d, kind) || CountsAsSkipped(d, kind));
      assert LeavesOut(ActionOf(d));
    }
  }

  lemma SplitSet(all: set<string>, part: set<string>)
    requires part <= all
    ensures |all| == |part| + |all - part|
  {
    assert all == part + (all - part);
  }

  /**
   Merged plus skipped differs from the rows left out by the candidates that repeat a row and by the rows nobody
   decided about; so it is right exactly when there are as many of the one as of the other.
   */
  lemma MergedPlusSkippedIsOff(dups: seq<Duplicate>, kind: EntityKind)
    ensures var counted := Tally(dups, d => CountsAsMerged(d, kind)) + Tally(dups, d => CountsAsSkipped(d, kind));
            && counted == |LeftOut(dups, kind)| + Repeats(dups, kind) - |LeftOutUncounted(dups, kind)|
            && (counted == |LeftOut(dups, kind)| <==> Repeats(dups, kind) == |LeftOutUncounted(dups, kind)|)
    ensures Repeats(dups, kind) >= 0
    ensures Repeats(dups, kind) == 0 <==> Distinct(CountedRefs(dups, kind))
  {
    MergedAndSkippedAreCounted(dups, kind);
    CountedAreLeftOut(dups, kind);
    SplitSet(LeftOut(dups, kind), CountedRows(dups, kind));
    DistinctMeansAsMany(CountedRefs(dups, kind));
  }

  /**
   Where every candidate of confidence 0.9 or more has been decided, as it has when a job completes, merged plus
   skipped is the number of rows left out exactly when no row is the incoming row of two decided candidates; otherwise
   it is more.
   */
  lemma MergedPlusSkippedIsLeftOut(dups: seq<Duplicate>, kind: EntityKind)
    requires forall d :: d in dups && d.kind == kind && d.resolvedAction.None? ==> d.confidence < 90
    ensures var counted := Tally(dups, d => CountsAsMerged(d, kind)) + Tally(dups, d => CountsAsSkipped(d, kind));
            && |LeftOut(dups, kind)| <= counted
            && (counted == |LeftOut(dups, kind)| <==> Distinct(CountedRefs(dups, kind)))
  {
    MergedAndSkippedAreCounted(dups, kind);
    MergedPlusSkippedIsOff(dups, kind);
    forall r | r in LeftOut(dups, kind)
      ensures r in CountedRows(dups, kind)
    {
      var d :| d in dups && d.kind == kind && LeavesOut(ActionOf(d)) && d.incoming == r;
      assert CountsAsMerged(d, kind) || CountsAsSkipped(d, kind);
    }
    assert LeftOutUncounted(dups, kind) == {};
  }

  /** Three rows with one phone: two are left out, three are reported merged. */
  lemma ThreeOfAKindOvercounts(a: Customer, b: Customer, c: Customer, norm: Norm)
    requires Truthy(a.phone) && a.phone == b.phone == c.phone
    requires a.rowRef == Some("a") && b.rowRef == Some("b") && c.rowRef == Some("c")
    ensures var rows := [a, b, c];
            var decided := [Auto(Candidate(rows, norm, 0, 1)), Auto(Candidate(rows, norm, 0, 2)),
                Auto(Candidate(rows, norm, 1, 2))];
            && Tally(decided, d => CountsAsMerged(d, CustomerKind)) == 3
            && LeftOut(decided, CustomerKind) == {"a", "b"}
  {
    var rows := [a, b, c];
    var decided := [Auto(Candidate(rows, norm, 0, 1)), Auto(Candidate(rows, norm, 0, 2)),
        Auto(Candidate(rows, norm, 1, 2))];
    var merged := d => CountsAsMerged(d, CustomerKind);
    assert decided[..2] == [decided[0], decided[1]] && decided[..2][..1] == [decided[0]] && [decided[0]][..0] == [];
    assert Tally(decided[..2][..1], merged) == 1;
    assert Tally(decided[..2], merged) == 2;
    assert Tally(decided, merged) == 3;
    assert forall d :: d in decided <==> d == decided[0] || d == decided[1] || d == decided[2];
  }
}
