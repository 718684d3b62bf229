/**
 Duplicate customers inside a batch and against the records of earlier imports.

 The program groups the rows by phone, e-mail and normalised name and pairs up the members of
 each group; the specification compares every row with every later row.  `norm` stands for the
 normalisation of a name (white space squeezed, lower case).
 */
module DuplicateDetection {
  import opened Wrappers
  import opened ImportModels

  type Norm = string -> string

  function PhoneKey(c: Customer): Option<string> {
    if Truthy(c.phone) then c.phone else None
  }

  function EmailKey(c: Customer): Option<string> {
    if Truthy(c.email) then c.email else None
  }

  function NameKey(c: Customer, norm: Norm): Option<string> {
    if c.name != "" then Some(norm(c.name)) else None
  }

  predicate Share(a: Option<string>, b: Option<string>) {
    a.Some? && a == b
  }

  /** The strongest reason to take two rows for the same customer, and its confidence. */
  function Likeness(a: Customer, b: Customer, norm: Norm): Option<(MatchType, nat)> {
    if Share(PhoneKey(a), PhoneKey(b)) then Some((ByPhone, 95))
    else if Share(EmailKey(a), EmailKey(b)) then Some((ByEmail, 90))
    else if Share(NameKey(a, norm), NameKey(b, norm)) then
      Some((ByName, if PhoneKey(a).None? && PhoneKey(b).None? then 70 else 55))
    else None
  }

  /** The candidate the pair of rows `i < j` must give. */
  function Candidate(customers: seq<Customer>, norm: Norm, i: nat, j: nat): Duplicate
    requires i < |customers| && j < |customers| && Likeness(customers[i], customers[j], norm).Some?
  {
    var (matchType, confidence) := Likeness(customers[i], customers[j], norm).value;
    Duplicate(CustomerKind, matchType, confidence, CustomerRef(customers[i], i), Some(CustomerRef(customers[j], j)),
              MergeRows, None, false)
  }

  /** Both rows have the field, not empty, and the same in it. */
  predicate SameField(a: Option<string>, b: Option<string>) {
    a.Some? && a != Some("") && a == b
  }

  /**
   Two rows make a candidate exactly when they share a phone, an e-mail or a normalised name, in that order of
   strength: 0.95, 0.9, and for a name 0.7 without any phone and 0.55 otherwise. The earlier row comes in, the later is
   there already, merging is suggested and nothing decided.
   */
  lemma CandidateByFields(customers: seq<Customer>, norm: Norm, i: nat, j: nat)
    requires i < |customers| && j < |customers|
    ensures var a, b := customers[i], customers[j];
            var phone, email := SameField(a.phone, b.phone), SameField(a.email, b.email);
            var name := a.name != "" && b.name != "" && norm(a.name) == norm(b.name);
            var noPhone := (a.phone == None || a.phone == Some("")) && (b.phone == None || b.phone == Some(""));
            && (Likeness(a, b, norm).Some? <==> phone || email || name)
            && (phone || email || name ==>
                  Candidate(customers, norm, i, j) ==
                  Duplicate(CustomerKind, if phone then ByPhone else if email then ByEmail else ByName,
                            if phone then 95 else if email then 90 else if noPhone then 70 else 55,
                            CustomerRef(a, i), Some(CustomerRef(b, j)), MergeRows, None, false))
  {
  }

  // ---------------------------------------------------------------- grouping

  /** A dictionary from key to row numbers, with its keys in the order they were first met. */
  datatype Groups = Groups(keys: seq<string>, rows: map<string, seq<nat>>)

  ghost predicate Rising(rows: seq<nat>) {
    forall a, b :: 0 <= a < b < |rows| ==> rows[a] < rows[b]
  }

  /** The groups hold, for each key, exactly the rows that have it, in order. */
  ghost predicate Grouped(g: Groups, keyOf: seq<Option<string>>) {
    && (forall k :: k in g.keys <==> k in g.rows)
    && (forall k :: k in g.rows ==> Rising(g.rows[k]))
    && (forall k, a :: k in g.rows && 0 <= a < |g.rows[k]| ==> g.rows[k][a] < |keyOf| && keyOf[g.rows[k][a]] == Some(k))
    && (forall i :: 0 <= i < |keyOf| && keyOf[i].Some? ==> keyOf[i].value in g.rows && i in g.rows[keyOf[i].value])
  }

  /** Appends row `i` to the group of `key`, if the row has that key at all. */
  function Filed(g: Groups, key: Option<string>, i: nat): Groups {
    if key.None? then g
    else if key.value in g.rows then g.(rows := g.rows[key.value := g.rows[key.value] + [i]])
    else Groups(g.keys + [key.value], g.rows[key.value := [i]])
  }

  lemma FiledIsGrouped(g: Groups, keyOf: seq<Option<string>>, key: Option<string>)
    requires Grouped(g, keyOf)
    ensures Grouped(Filed(g, key, |keyOf|), keyOf + [key])
  {
    var g', keys' := Filed(g, key, |keyOf|), keyOf + [key];
    forall i | 0 <= i < |keys'| && keys'[i].Some?
      ensures keys'[i].value in g'.rows && i in g'.rows[keys'[i].value]
    {
      if i == |keyOf| {
        var group := g'.rows[key.value];
        assert group[|group| - 1] == i;
      } else {
        var a :| 0 <= a < |g.rows[keyOf[i].value]| && g.rows[keyOf[i].value][a] == i;
        assert g'.rows[keyOf[i].value][a] == i;
      }
    }
  }

  // ---------------------------------------------------------------- pairing

  /** The three groupings, strongest first. */
  datatype Stage = PhoneStage | EmailStage | NameStage

  function KeyFor(stage: Stage, c: Customer, norm: Norm): Option<string> {
    match stage
    case PhoneStage => PhoneKey(c)
    case EmailStage => EmailKey(c)
    case NameStage => NameKey(c, norm)
  }

  function KeysOf(stage: Stage, customers: seq<Customer>, norm: Norm): seq<Option<string>> {
    seq(|customers|, i requires 0 <= i < |customers| => KeyFor(stage, customers[i], norm))
  }

  /** Collects the pairs; `pairs` remembers which rows each candidate is about. */
  class Collector {
    const customers: seq<Customer>
    const norm: Norm
    var seen: set<set<string>>
    var dups: seq<Duplicate>
    ghost var pairs: seq<(nat, nat)>

    constructor (customers: seq<Customer>, norm: Norm)
      requires Distinct(Refs(customers))
      ensures this.customers == customers && this.norm == norm
      ensures Valid() && Faithful() && pairs == []
    {
      this.customers, this.norm := customers, norm;
      seen, dups, pairs := {}, [], [];
    }

    ghost predicate Valid()
      reads this
    {
      && Distinct(Refs(customers))
      && |pairs| == |dups|
      && (forall k :: 0 <= k < |pairs| ==> pairs[k].0 < pairs[k].1 < |customers|)
      && (forall k, l :: 0 <= k < l < |pairs| ==> pairs[k] != pairs[l])
      && (forall key :: key in seen <==> exists k :: 0 <= k < |pairs| && key == PairKey(pairs[k]))
    }

    /** Every candidate is the one its pair of rows must give. */
    ghost predicate Faithful()
      reads this
      requires Valid()
    {
      forall k :: 0 <= k < |pairs| ==>
        && Likeness(customers[pairs[k].0], customers[pairs[k].1], norm).Some?
        && dups[k] == Candidate(customers, norm, pairs[k].0, pairs[k].1)
    }

    ghost predicate Covers(stage: Stage)
      reads this
    {
      CoversIn(stage, pairs)
    }

    ghost predicate CoversIn(stage: Stage, ps: seq<(nat, nat)>) {
      forall i, j ::
        0 <= i < j < |customers| && Share(KeyFor(stage, customers[i], norm), KeyFor(stage, customers[j], norm))
        ==> (i, j) in ps
    }

    lemma CoverStays(stage: Stage, before: seq<(nat, nat)>)
      requires CoversIn(stage, before) && before <= pairs
      ensures Covers(stage)
    {
      forall i, j | 0 <= i < j < |customers|
          && Share(KeyFor(stage, customers[i], norm), KeyFor(stage, customers[j], norm))
        ensures (i, j) in pairs
      {
        assert (i, j) in before;
      }
    }

    /** The two references in either order. */
    ghost function PairKey(p: (nat, nat)): set<string>
      requires p.0 < |customers| && p.1 < |customers|
    {
      {CustomerRef(customers[p.0], p.0), CustomerRef(customers[p.1], p.1)}
    }

    lemma PairKeyIsInjective(p: (nat, nat), q: (nat, nat))
      requires Distinct(Refs(customers)) && p.0 < p.1 < |customers| && q.0 < q.1 < |customers|
      requires PairKey(p) == PairKey(q)
      ensures p == q
    {
      var refs := Refs(customers);
      assert refs[p.0] in PairKey(q) && refs[p.1] in PairKey(q);
      assert refs[q.0] in PairKey(p) && refs[q.1] in PairKey(p);
    }

    /** Adds a candidate unless its two rows were paired before. */
    method AddPair(i: nat, j: nat, matchType: MatchType, confidence: nat)
      requires Valid() && i < j < |customers|
      modifies this
      ensures Valid()
      ensures (i, j) in old(pairs) ==> pairs == old(pairs) && dups == old(dups)
      ensures (i, j) !in old(pairs) ==> pairs == old(pairs) + [(i, j)]
      ensures (i, j) !in old(pairs) ==>
        dups == old(dups) + [Duplicate(CustomerKind, matchType, confidence, CustomerRef(customers[i], i),
                                       Some(CustomerRef(customers[j], j)), MergeRows, None, false)]
    {
      hide Faithful;
      hide Candidate;
      hide Likeness;
      var refA, refB := CustomerRef(customers[i], i), CustomerRef(customers[j], j);
      assert Refs(customers)[i] == refA && Refs(customers)[j] == refB;
      var key := {refA, refB};
      if key in seen || refA == refB {
        ghost var k :| 0 <= k < |pairs| && key == PairKey(pairs[k]);
        PairKeyIsInjective(pairs[k], (i, j));
        return;
      }
      assert (i, j) !in pairs by {
        forall k | 0 <= k < |pairs|
          ensures pairs[k] != (i, j)
        {
          assert PairKey(pairs[k]) in seen;
        }
      }
      seen := seen + {key};
      dups := dups + [Duplicate(CustomerKind, matchType, confidence, refA, Some(refB), MergeRows, None, false)];
      pairs := pairs + [(i, j)];
      assert forall k :: 0 <= k < |old(pairs)| ==> pairs[k] == old(pairs)[k];
      assert pairs[|old(pairs)|] == (i, j);
      forall x
        ensures x in seen <==> exists k :: 0 <= k < |pairs| && x == PairKey(pairs[k])
      {
        if x in old(seen) {
          var k :| 0 <= k < |old(pairs)| && x == PairKey(old(pairs)[k]);
          assert x == PairKey(pairs[k]);
        } else if x == key {
          assert x == PairKey(pairs[|old(pairs)|]);
        }
      }
    }

    /** Candidates are right so far and the stronger stages are done. */
    ghost predicate Ready(stage: Stage)
      reads this
    {
      && Valid() && Faithful()
      && (!stage.PhoneStage? ==> Covers(PhoneStage))
      && (stage.NameStage? ==> Covers(EmailStage))
    }

    /** Pairs up two rows of one group of a stage. */
    method AddMatch(stage: Stage, i: nat, j: nat)
      requires Ready(stage) && i < j < |customers|
      requires Share(KeyFor(stage, customers[i], norm), KeyFor(stage, customers[j], norm))
      modifies this
      ensures Ready(stage) && old(pairs) <= pairs && (i, j) in pairs
    {
      ghost var before := pairs;
      match stage {
      case PhoneStage => AddPair(i, j, ByPhone, 95);
      case EmailStage => AddPair(i, j, ByEmail, 90);
      case NameStage =>
        var confidence := 55;
        if !Truthy(customers[i].phone) && !Truthy(customers[j].phone) {
          confidence := 70;
        }
        AddPair(i, j, ByName, confidence);
      }
      if !stage.PhoneStage? { CoverStays(PhoneStage, before); }
      if stage.NameStage? { CoverStays(EmailStage, before); }
    }

    /** Every member of one group against every later member. */
    method AddGroup(stage: Stage, group: seq<nat>)
      requires Ready(stage)
      requires Rising(group) && forall a :: 0 <= a < |group| ==> group[a] < |customers|
      requires forall a, b :: 0 <= a < b < |group| ==>
        Share(KeyFor(stage, customers[group[a]], norm), KeyFor(stage, customers[group[b]], norm))
      modifies this
      ensures Ready(stage) && old(pairs) <= pairs && AllPaired(group, |group|, pairs)
    {
      hide Ready;
      hide Share;
      hide KeyFor;
      var a := 0;
      while a < |group|
        invariant 0 <= a <= |group|
        invariant Ready(stage) && old(pairs) <= pairs
        invariant AllPaired(group, a, pairs)
      {
        var b := a + 1;
        while b < |group|
          invariant a < b <= |group|
          invariant Ready(stage) && old(pairs) <= pairs
          invariant AllPaired(group, a, pairs)
          invariant forall b' :: a < b' < b ==> (group[a], group[b']) in pairs
        {
          ghost var before := pairs;
          AddMatch(stage, group[a], group[b]);
          PairedStays(group, a, before, pairs);
          b := b + 1;
        }
        a := a + 1;
      }
    }

    method AddGroups(stage: Stage, g: Groups)
      requires Ready(stage) && Grouped(g, KeysOf(stage, customers, norm))
      modifies this
      ensures Ready(stage) && old(pairs) <= pairs && Covers(stage)
    {
      var m := 0;
      while m < |g.keys|
        invariant 0 <= m <= |g.keys|
        invariant Ready(stage) && old(pairs) <= pairs
        invariant GroupsPaired(g, m, pairs)
      {
        assert g.keys[m] in g.keys;
        var group := g.rows[g.keys[m]];
        GroupShares(stage, g, g.keys[m]);
        ghost var before := pairs;
        AddGroup(stage, group);
        OneMoreGroup(g, m, before, pairs);
        m := m + 1;
      }
      GroupsCover(stage, g);
    }

    lemma GroupShares(stage: Stage, g: Groups, k: string)
      requires Grouped(g, KeysOf(stage, customers, norm)) && k in g.rows
      ensures var group := g.rows[k];
              && Rising(group) && (forall a :: 0 <= a < |group| ==> group[a] < |customers|)
              && forall a, b :: 0 <= a < b < |group| ==>
                   Share(KeyFor(stage, customers[group[a]], norm), KeyFor(stage, customers[group[b]], norm))
    {
      var group, keyOf := g.rows[k], KeysOf(stage, customers, norm);
      assert forall a :: 0 <= a < |group| ==> keyOf[group[a]] == Some(k);
    }

    lemma GroupsCover(stage: Stage, g: Groups)
      requires Grouped(g, KeysOf(stage, customers, norm))
      requires GroupsPaired(g, |g.keys|, pairs)
      ensures Covers(stage)
    {
      forall i, j | 0 <= i < j < |customers|
          && Share(KeyFor(stage, customers[i], norm), KeyFor(stage, customers[j], norm))
        ensures (i, j) in pairs
      {
        var keyOf := KeysOf(stage, customers, norm);
        var k := keyOf[i].value;
        assert keyOf[j] == Some(k);
        var group := g.rows[k];
        var m :| 0 <= m < |g.keys| && g.keys[m] == k;
        var a :| 0 <= a < |group| && group[a] == i;
        var b :| 0 <= b < |group| && group[b] == j;
        assert a < b;
        assert AllPaired(g.rows[g.keys[m]], |g.rows[g.keys[m]]|, pairs);
      }
    }
  }

  /** The first `upTo` members are paired with every later member. */
  ghost predicate AllPaired(group: seq<nat>, upTo: int, pairs: seq<(nat, nat)>) {
    forall a, b :: 0 <= a < upTo && a < b < |group| ==> (group[a], group[b]) in pairs
  }

  ghost predicate GroupsPaired(g: Groups, upTo: int, pairs: seq<(nat, nat)>) {
    forall m :: 0 <= m < upTo && m < |g.keys| ==>
      g.keys[m] in g.rows && AllPaired(g.rows[g.keys[m]], |g.rows[g.keys[m]]|, pairs)
  }

  lemma OneMoreGroup(g: Groups, m: nat, before: seq<(nat, nat)>, pairs: seq<(nat, nat)>)
    requires m < |g.keys| && g.keys[m] in g.rows && before <= pairs
    requires GroupsPaired(g, m, before) && AllPaired(g.rows[g.keys[m]], |g.rows[g.keys[m]]|, pairs)
    ensures GroupsPaired(g, m + 1, pairs)
  {
    forall m' | 0 <= m' < m
      ensures g.keys[m'] in g.rows && AllPaired(g.rows[g.keys[m']], |g.rows[g.keys[m']]|, pairs)
    {
      PairedStays(g.rows[g.keys[m']], |g.rows[g.keys[m']]|, before, pairs);
    }
  }

  lemma PairedStays(group: seq<nat>, upTo: int, before: seq<(nat, nat)>, pairs: seq<(nat, nat)>)
    requires AllPaired(group, upTo, before) && before <= pairs
    ensures AllPaired(group, upTo, pairs)
  {
    forall a, b | 0 <= a < upTo && a < b < |group|
      ensures (group[a], group[b]) in pairs
    {
      assert (group[a], group[b]) in before;
    }
  }

  /** The candidates are those of comparing every row with every later one, each exactly once. */
  ghost predicate ExactlyThePairs(customers: seq<Customer>, norm: Norm, dups: seq<Duplicate>) {
    && (forall i, j :: 0 <= i < j < |customers| && Likeness(customers[i], customers[j], norm).Some?
          ==> Candidate(customers, norm, i, j) in dups)
    && (forall k :: 0 <= k < |dups| ==> IsCandidate(customers, norm, dups[k]))
    && (forall k, l :: 0 <= k < l < |dups| ==>
        (dups[k].incoming, dups[k].existing) != (dups[l].incoming, dups[l].existing))
  }

  ghost predicate IsCandidate(customers: seq<Customer>, norm: Norm, d: Duplicate) {
    exists i, j :: 0 <= i < j < |customers| && Likeness(customers[i], customers[j], norm).Some?
                   && d == Candidate(customers, norm, i, j)
  }

  /** One pass over the rows fills the three dictionaries. */
  method IndexRows(customers: seq<Customer>, norm: Norm) returns (byPhone: Groups, byEmail: Groups, byName: Groups)
    ensures Grouped(byPhone, KeysOf(PhoneStage, customers, norm))
    ensures Grouped(byEmail, KeysOf(EmailStage, customers, norm))
    ensures Grouped(byName, KeysOf(NameStage, customers, norm))
  {
    hide Grouped;
    hide Filed;
    byPhone, byEmail, byName := Groups([], map[]), Groups([], map[]), Groups([], map[]);
    NothingFiled(PhoneStage, customers, norm);
    NothingFiled(EmailStage, customers, norm);
    NothingFiled(NameStage, customers, norm);
    var i := 0;
    while i < |customers|
      invariant 0 <= i <= |customers|
      invariant FiledUpTo(byPhone, PhoneStage, customers, norm, i)
      invariant FiledUpTo(byEmail, EmailStage, customers, norm, i)
      invariant FiledUpTo(byName, NameStage, customers, norm, i)
    {
      FileOne(byPhone, PhoneStage, customers, norm, i);
      FileOne(byEmail, EmailStage, customers, norm, i);
      FileOne(byName, NameStage, customers, norm, i);
      byPhone := Filed(byPhone, PhoneKey(customers[i]), i);
      byEmail := Filed(byEmail, EmailKey(customers[i]), i);
      byName := Filed(byName, NameKey(customers[i], norm), i);
      i := i + 1;
    }
    AllFiled(byPhone, PhoneStage, customers, norm);
    AllFiled(byEmail, EmailStage, customers, norm);
    AllFiled(byName, NameStage, customers, norm);
  }

  ghost predicate FiledUpTo(g: Groups, stage: Stage, customers: seq<Customer>, norm: Norm, i: nat)
    requires i <= |customers|
  {
    Grouped(g, KeysOf(stage, customers, norm)[..i])
  }

  lemma NothingFiled(stage: Stage, customers: seq<Customer>, norm: Norm)
    ensures FiledUpTo(Groups([], map[]), stage, customers, norm, 0)
  {
  }

  lemma AllFiled(g: Groups, stage: Stage, customers: seq<Customer>, norm: Norm)
    requires FiledUpTo(g, stage, customers, norm, |customers|)
    ensures Grouped(g, KeysOf(stage, customers, norm))
  {
    assert KeysOf(stage, customers, norm)[..|customers|] == KeysOf(stage, customers, norm);
  }

  method DetectInBatch(customers: seq<Customer>, norm: Norm) returns (dups: seq<Duplicate>)
    requires Distinct(Refs(customers))
    ensures ExactlyThePairs(customers, norm, dups)
  {
    var byPhone, byEmail, byName := IndexRows(customers, norm);
    var collector := new Collector(customers, norm);
    collector.AddGroups(PhoneStage, byPhone);
    ghost var afterPhone := collector.pairs;
    collector.AddGroups(EmailStage, byEmail);
    collector.CoverStays(PhoneStage, afterPhone);
    ghost var afterEmail := collector.pairs;
    collector.AddGroups(NameStage, byName);
    collector.CoverStays(PhoneStage, afterEmail);
    collector.CoverStays(EmailStage, afterEmail);
    dups := collector.dups;
    CollectedPairs(collector);
  }

  lemma FileOne(g: Groups, stage: Stage, customers: seq<Customer>, norm: Norm, i: nat)
    requires i < |customers| && FiledUpTo(g, stage, customers, norm, i)
    ensures FiledUpTo(Filed(g, KeyFor(stage, customers[i], norm), i), stage, customers, norm, i + 1)
  {
    var keyOf := KeysOf(stage, customers, norm);
    FiledIsGrouped(g, keyOf[..i], keyOf[i]);
    assert keyOf[..i + 1] == keyOf[..i] + [keyOf[i]];
  }

  lemma CollectedPairs(c: Collector)
    requires c.Valid() && c.Faithful()
    requires c.Covers(PhoneStage) && c.Covers(EmailStage) && c.Covers(NameStage)
    ensures ExactlyThePairs(c.customers, c.norm, c.dups)
  {
    CollectedOnce(c);
    forall i, j | 0 <= i < j < |c.customers| && Likeness(c.customers[i], c.customers[j], c.norm).Some?
      ensures Candidate(c.customers, c.norm, i, j) in c.dups
    {
      assert (i, j) in c.pairs;
      var k :| 0 <= k < |c.pairs| && c.pairs[k] == (i, j);
      assert c.dups[k] == Candidate(c.customers, c.norm, i, j);
    }
  }

  lemma CollectedOnce(c: Collector)
    requires c.Valid() && c.Faithful()
    ensures forall k, l :: 0 <= k < l < |c.dups| ==>
      (c.dups[k].incoming, c.dups[k].existing) != (c.dups[l].incoming, c.dups[l].existing)
  {
    hide Likeness;
    forall k, l | 0 <= k < l < |c.dups|
      ensures (c.dups[k].incoming, c.dups[k].existing) != (c.dups[l].incoming, c.dups[l].existing)
    {
      var refs := Refs(c.customers);
      var (i, j) := c.pairs[k];
      var (i', j') := c.pairs[l];
      assert refs[i] == c.dups[k].incoming && refs[j] == c.dups[k].existing.value;
      assert refs[i'] == c.dups[l].incoming && refs[j'] == c.dups[l].existing.value;
    }
  }

  // ---------------------------------------------------------------- earlier imports

  /** A customer record of an earlier import that has not been merged away; a missing field is "". */
  datatype Record = Record(id: string, phone: string, email: string)

  /** Does the store lookup by phone or by e-mail of row `c` find record `r`?  `lower` is lower-casing. */
  predicate Matches(c: Customer, r: Record, lower: Norm) {
    || (Truthy(c.phone) && lower(r.phone) == lower(c.phone.value))
    || (Truthy(c.email) && lower(r.email) == lower(lower(c.email.value)))
  }

  function StoreCandidate(c: Customer, index: nat, r: Record): Duplicate {
    Duplicate(CustomerKind, Composite, 92, CustomerRef(c, index), Some(r.id), MergeRows, None, false)
  }

  /**
   A record is found for a row by the phone or the e-mail the row has, in lower case; such a candidate has confidence
   0.92 and names the record.
   */
  lemma StoreCandidateByFields(c: Customer, index: nat, r: Record, lower: Norm)
    ensures Matches(c, r, lower) <==>
            || (c.phone.Some? && c.phone.value != "" && lower(c.phone.value) == lower(r.phone))
            || (c.email.Some? && c.email.value != "" && lower(lower(c.email.value)) == lower(r.email))
    ensures StoreCandidate(c, index, r) ==
            Duplicate(CustomerKind, Composite, 92, CustomerRef(c, index), Some(r.id), MergeRows, None, false)
  {
  }

  /** The records whose field reads the same in lower case, in the order of the store. */
  function Holding(records: seq<Record>, field: Record -> string, value: string, lower: Norm): (held: seq<Record>)
    ensures forall r :: r in held <==> r in records && lower(field(r)) == lower(value)
  {
    if records == [] then []
    else
      var last, front := records[|records| - 1], records[..|records| - 1];
      assert records == front + [last];
      Holding(front, field, value, lower) + if lower(field(last)) == lower(value) then [last] else []
  }

  /** `_find`. */
  method Find(records: seq<Record>, field: Record -> string, value: string, lower: Norm) returns (found: seq<Record>)
    ensures found == Holding(records, field, value, lower)
    ensures forall r :: r in found <==> r in records && lower(field(r)) == lower(value)
  {
    found := [];
    for i := 0 to |records|
      invariant found == Holding(records[..i], field, value, lower)
    {
      assert records[..i + 1][..i] == records[..i];
      if lower(field(records[i])) == lower(value) {
        found := found + [records[i]];
      }
    }
    assert records[..|records|] == records;
  }

  /** The candidates of one row: one for every record it matches, by whichever field. */
  method DetectRowAgainstStore(c: Customer, index: nat, records: seq<Record>, lower: Norm)
      returns (dups: seq<Duplicate>)
    requires forall r, r' :: r in records && r' in records && r.id == r'.id ==> r == r'
    ensures forall d ::
      d in dups <==> exists r :: r in records && Matches(c, r, lower) && d == StoreCandidate(c, index, r)
    ensures forall k, l :: 0 <= k < l < |dups| ==> dups[k].existing != dups[l].existing
  {
    var matches := [];
    if Truthy(c.phone) {
      matches := Find(records, (r: Record) => r.phone, c.phone.value, lower);
    }
    if Truthy(c.email) {
      var byEmail := Find(records, (r: Record) => r.email, lower(c.email.value), lower);
      matches := matches + byEmail;
    }
    assert forall r :: r in matches <==> r in records && Matches(c, r, lower);
    dups := OnePerRecord(c, index, matches);
    forall d
      ensures d in dups <==> exists r :: r in records && Matches(c, r, lower) && d == StoreCandidate(c, index, r)
    {
      if d in dups {
        var r :| r in matches && d == StoreCandidate(c, index, r);
        assert r in records && Matches(c, r, lower);
      }
      if r :| r in records && Matches(c, r, lower) && d == StoreCandidate(c, index, r) {
        assert r in matches;
      }
    }
  }

  method OnePerRecord(c: Customer, index: nat, matches: seq<Record>) returns (dups: seq<Duplicate>)
    requires forall r, r' :: r in matches && r' in matches && r.id == r'.id ==> r == r'
    ensures forall d :: d in dups <==> exists r :: r in matches && d == StoreCandidate(c, index, r)
    ensures forall k, l :: 0 <= k < l < |dups| ==> dups[k].existing != dups[l].existing
  {
    dups := [];
    var seen: set<string> := {};
    for i := 0 to |matches|
      invariant forall d :: d in dups <==> exists r :: r in matches[..i] && d == StoreCandidate(c, index, r)
      invariant forall id :: id in seen <==> exists k :: 0 <= k < |dups| && dups[k].existing == Some(id)
      invariant forall k, l :: 0 <= k < l < |dups| ==> dups[k].existing != dups[l].existing
    {
      var rec := matches[i];
      ghost var before := dups;
      if rec.id !in seen {
        seen := seen + {rec.id};
        dups := dups + [StoreCandidate(c, index, rec)];
        assert dups[|before|].existing == Some(rec.id);
        assert forall k :: 0 <= k < |before| ==> dups[k] == before[k];
      } else {
        var k :| 0 <= k < |dups| && dups[k].existing == Some(rec.id);
        assert dups[k] in dups;
        assert StoreCandidate(c, index, rec) in dups;
      }
      forall d
        ensures d in dups <==> exists r :: r in matches[..i + 1] && d == StoreCandidate(c, index, r)
      {
        if d in before {
          var r :| r in matches[..i] && d == StoreCandidate(c, index, r);
          assert r in matches[..i + 1];
        }
        if r :| r in matches[..i + 1] && d == StoreCandidate(c, index, r) {
          if r != rec { assert r in matches[..i]; }
        }
        if d == StoreCandidate(c, index, rec) { assert rec in matches[..i + 1]; }
      }
    }
  }

  /** Some record of the store matches the row. */
  ghost predicate InStore(c: Customer, records: seq<Record>, lower: Norm) {
    exists r :: r in records && Matches(c, r, lower)
  }

  /** The candidates are exactly the row-record pairs that match. */
  ghost predicate ExactlyTheMatches(customers: seq<Customer>, records: seq<Record>, lower: Norm, dups: seq<Duplicate>) {
    forall d :: d in dups <==> MatchesSomewhere(customers, |customers|, records, lower, d)
  }

  ghost predicate MatchesSomewhere(
    customers: seq<Customer>, upTo: nat, records: seq<Record>, lower: Norm, d: Duplicate)
    requires upTo <= |customers|
  {
    exists i, r ::
        0 <= i < upTo && r in records && Matches(customers[i], r, lower) && d == StoreCandidate(customers[i], i, r)
  }

  method DetectAgainstStore(customers: seq<Customer>, records: seq<Record>, lower: Norm) returns (dups: seq<Duplicate>)
    requires forall r, r' :: r in records && r' in records && r.id == r'.id ==> r == r'
    ensures ExactlyTheMatches(customers, records, lower, dups)
  {
    dups := [];
    for i := 0 to |customers|
      invariant forall d :: d in dups <==> MatchesSomewhere(customers, i, records, lower, d)
    {
      var more := DetectRowAgainstStore(customers[i], i, records, lower);
      forall d
        ensures d in dups + more <==> MatchesSomewhere(customers, i + 1, records, lower, d)
      {
        if d in more {
          var r :| r in records && Matches(customers[i], r, lower) && d == StoreCandidate(customers[i], i, r);
        }
        if MatchesSomewhere(customers, i + 1, records, lower, d) {
          var j, r :| 0 <= j < i + 1 && r in records && Matches(customers[j], r, lower)
              && d == StoreCandidate(customers[j], j, r);
          assert j < i ==> MatchesSomewhere(customers, i, records, lower, d);
        }
      }
      dups := dups + more;
    }
  }
}
