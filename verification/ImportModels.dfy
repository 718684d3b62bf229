/** The import engine's rows and duplicate candidates, as far as detection and resolution read them. */
module ImportModels {
  import opened Wrappers
  import opened Decimals

  datatype Customer = Customer(
    externalId: Option<string>, name: string, phone: Option<string>, email: Option<string>,
    address: Option<string>, source: string, metadata: map<string, string>, rowRef: Option<string>)

  datatype EntityKind = CustomerKind | VehicleKind

  datatype MatchType = ByPhone | ByEmail | ByName | ByVin | Composite

  datatype Action = KeepExisting | KeepIncoming | MergeRows | Skip

  /** Confidences are in hundredths. */
  datatype Duplicate = Duplicate(
    kind: EntityKind, matchType: MatchType, confidence: nat, incoming: string, existing: Option<string>,
    suggested: Action, resolvedAction: Option<Action>, resolved: bool)

  /** A value that is there and not empty: what `if value:` tests. */
  predicate Truthy(o: Option<string>) {
    o.Some? && o.value != ""
  }

  function Or(a: Option<string>, b: Option<string>): Option<string> {
    if Truthy(a) then a else b
  }

  /** The reference of row `index`: its own, else its external id, else its position. */
  function CustomerRef(c: Customer, index: nat): string {
    if Truthy(c.rowRef) then c.rowRef.value
    else if Truthy(c.externalId) then c.externalId.value
    else "customer:" + Decimal(index)
  }

  /** A row is referred to by its own reference, without one by its external id, and without either by its position. */
  lemma RefByFields(c: Customer, index: nat)
    ensures c.rowRef.Some? && c.rowRef != Some("") ==> Some(CustomerRef(c, index)) == c.rowRef
    ensures (c.rowRef == None || c.rowRef == Some("")) && c.externalId.Some? && c.externalId != Some("") ==>
              Some(CustomerRef(c, index)) == c.externalId
    ensures (c.rowRef == None || c.rowRef == Some("")) && (c.externalId == None || c.externalId == Some("")) ==>
              CustomerRef(c, index) == "customer:" + Decimal(index)
  {
  }

  function Refs(customers: seq<Customer>): seq<string> {
    seq(|customers|, i requires 0 <= i < |customers| => CustomerRef(customers[i], i))
  }

  predicate Distinct(refs: seq<string>) {
    forall i, j :: 0 <= i < j < |refs| ==> refs[i] != refs[j]
  }
}
