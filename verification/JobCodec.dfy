/**
 How the SQL store packs an import job into its row and reads it back.

 Each reader of the source is a list of fields, and each field is read in one of a few ways; the ways are modelled
 once and the lists are written out. JSON text itself is not modelled: a row holds the JSON value.
 */
module JobCodec {
  import opened Wrappers

  datatype Json =
    | Null | Bool(b: bool) | Num(n: int) | Str(s: string)
    | Arr(items: seq<Json>) | Obj(members: map<string, Json>)

  /** What a field of a dataclass holds. An enumeration member is its value, a Decimal its digits. */
  datatype Value =
    | Missing
    | Text(text: string)
    | Integer(n: int)
    | Flag(b: bool)
    | Money(digits: string)
    | Time(at: int)
    | Choice(name: string)
    | Ident(id: int)
    | Dict(members: map<string, Json>)
    | List(items: seq<Json>)
    | Words(words: seq<string>)
    | Records(records: seq<Record>)
    | Tabled(table: map<string, Record>)
    | Single(record: Record)
    | Other(json: Json)

  /** The fields of a dataclass in order. */
  type Record = seq<Value>

  /** The ways of reading a field `x = d.get(name)`. */
  datatype Kind =
    | Raw                                           // x
    | Name(default: string)                         // str(x or default)
    | Amount                                        // Decimal(str(x or "0"))
    | When                                          // _parse_dt(x)
    | OneOf(names: set<string>, standard: string)   // _enum(cls, x, standard)
    | MaybeOneOf(names: set<string>)                // _enum(cls, x, None) if x else None
    | Id                                            // _parse_uuid(x) or uuid4()
    | Count                                         // int(x or 0), float(x or 0)
    | Bit                                           // bool(x)
    | Object                                        // dict(x or {})
    | Sequence                                      // list(x or [])
    | Texts                                         // [str(w) for w in x or []]
    | Many(fields: Schema)                          // a list of records
    | Table(fields: Schema)                         // a dictionary of records
    | Maybe(fields: Schema)                         // a record or None

  datatype Field = Field(name: string, kind: Kind)

  type Schema = seq<Field>

  /** The foreign formats: timestamps, UUIDs, `str` of other JSON values, and the UUID drawn for an unreadable one. */
  datatype Formats = Formats(
    iso: int -> string, parse: string -> Option<int>, uuid: int -> string, parseUuid: string -> Option<int>,
    show: Json -> string, drawn: int)

  ghost predicate Faithful(f: Formats) {
    && (forall t {:trigger f.iso(t)} :: f.iso(t) != "" && f.parse(f.iso(t)) == Some(t))
    && (forall id {:trigger f.uuid(id)} :: f.uuid(id) != "" && f.parseUuid(f.uuid(id)) == Some(id))
  }

  // ---------------------------------------------------------------- writing

  function Write(f: Formats, kind: Kind, v: Value): Json
    decreases kind
  {
    match v
    case Missing => Null
    case Text(text) => Str(text)
    case Integer(n) => Num(n)
    case Flag(b) => Bool(b)
    case Money(digits) => Str(digits)
    case Time(at) => Str(f.iso(at))
    case Choice(name) => Str(name)
    case Ident(id) => Str(f.uuid(id))
    case Dict(members) => Obj(members)
    case List(items) => Arr(items)
    case Words(words) => Arr(seq(|words|, i requires 0 <= i < |words| => Str(words[i])))
    case Records(records) => if kind.Many? then Arr(WriteAll(f, kind.fields, records)) else Null
    case Tabled(table) =>
      if kind.Table? then Obj(map key | key in table :: Obj(WriteRecord(f, kind.fields, table[key]))) else Null
    case Single(record) => if kind.Maybe? then Obj(WriteRecord(f, kind.fields, record)) else Null
    case Other(json) => json
  }

  function WriteRecord(f: Formats, fields: Schema, record: Record): map<string, Json>
    decreases fields, 0
  {
    if fields == [] || record == [] then map[] else
      WriteRecord(f, fields[1..], record[1..])[fields[0].name := Write(f, fields[0].kind, record[0])]
  }

  function WriteAll(f: Formats, fields: Schema, records: seq<Record>): seq<Json>
    decreases fields, |records| + 1
  {
    if records == [] then [] else [Obj(WriteRecord(f, fields, records[0]))] + WriteAll(f, fields, records[1..])
  }

  // ---------------------------------------------------------------- reading

  function Get(members: map<string, Json>, name: string): Json {
    if name in members then members[name] else Null
  }

  predicate Truthy(json: Json) {
    match json
    case Null => false
    case Bool(b) => b
    case Num(n) => n != 0
    case Str(s) => s != ""
    case Arr(items) => items != []
    case Obj(members) => members != map[]
  }

  function AsText(f: Formats, json: Json): string {
    if json.Str? then json.s else f.show(json)
  }

  function Read(f: Formats, kind: Kind, json: Json): Value
    decreases kind
  {
    match kind
    case Raw => (match json case Null => Missing case Str(s) => Text(s) case Num(n) => Integer(n) case _ => Other(json))
    case Name(default) => Text(if Truthy(json) then AsText(f, json) else default)
    case Amount => Money(if Truthy(json) then AsText(f, json) else "0")
    case When =>
      if json == Null || json == Str("") then Missing
      else (match f.parse(AsText(f, json)) case Some(at) => Time(at) case None => Missing)
    case OneOf(names, standard) => Choice(if json.Str? && json.s != "" && json.s in names then json.s else standard)
    case MaybeOneOf(names) => if json.Str? && json.s != "" && json.s in names then Choice(json.s) else Missing
    case Id =>
      if json == Null || json == Str("") then Ident(f.drawn)
      else (match f.parseUuid(AsText(f, json)) case Some(id) => Ident(id) case None => Ident(f.drawn))
    case Count => Integer(if json.Num? then json.n else 0)
    case Bit => Flag(Truthy(json))
    case Object => Dict(if json.Obj? then json.members else map[])
    case Sequence => List(if json.Arr? then json.items else [])
    case Texts =>
      Words(if json.Arr? then seq(|json.items|, i requires 0 <= i < |json.items| => AsText(f, json.items[i])) else [])
    case Many(fields) => Records(if json.Arr? then ReadAll(f, fields, json.items) else [])
    case Table(fields) =>
      Tabled(if json.Obj? then
               map key | key in json.members && json.members[key].Obj? ::
                   ReadRecord(f, fields, json.members[key].members)
             else map[])
    case Maybe(fields) => if json.Obj? && json.members != map[] then Single(ReadRecord(f, fields, json.members))
        else Missing
  }

  function ReadRecord(f: Formats, fields: Schema, members: map<string, Json>): Record
    decreases fields, 0
  {
    if fields == [] then [] else
      [Read(f, fields[0].kind, Get(members, fields[0].name))] + ReadRecord(f, fields[1..], members)
  }

  function ReadAll(f: Formats, fields: Schema, items: seq<Json>): seq<Record>
    decreases fields, |items| + 1
  {
    if items == [] then [] else
      (if items[0].Obj? then [ReadRecord(f, fields, items[0].members)] else []) + ReadAll(f, fields, items[1..])
  }

  // ---------------------------------------------------------------- which values fields hold

  ghost predicate Has(kind: Kind, v: Value)
    decreases kind
  {
    match kind
    case Raw => v.Missing? || v.Text? || v.Integer?
    case Name(_) => v.Text?
    case Amount => v.Money? && v.digits != ""
    case When => v.Missing? || v.Time?
    case OneOf(names, _) => v.Choice? && v.name in names && v.name != ""
    case MaybeOneOf(names) => v.Missing? || (v.Choice? && v.name in names && v.name != "")
    case Id => v.Ident?
    case Count => v.Integer?
    case Bit => v.Flag?
    case Object => v.Dict?
    case Sequence => v.List?
    case Texts => v.Words?
    case Many(fields) => v.Records? && forall i :: 0 <= i < |v.records| ==> HasAll(fields, v.records[i])
    case Table(fields) => v.Tabled? && forall key :: key in v.table ==> HasAll(fields, v.table[key])
    case Maybe(fields) => v.Missing? || (v.Single? && fields != [] && HasAll(fields, v.record))
  }

  ghost predicate HasAll(fields: Schema, record: Record)
    decreases fields
  {
    |record| == |fields| && forall i :: 0 <= i < |fields| ==> Has(fields[i].kind, record[i])
  }

  /** The dictionaries of the source have a key once. */
  ghost predicate Proper(kind: Kind)
    decreases kind
  {
    match kind
    case Many(fields) => ProperAll(fields)
    case Table(fields) => ProperAll(fields)
    case Maybe(fields) => ProperAll(fields)
    case _ => true
  }

  ghost predicate ProperAll(fields: Schema)
    decreases fields
  {
    && (forall i, j :: 0 <= i < j < |fields| ==> fields[i].name != fields[j].name)
    && forall i :: 0 <= i < |fields| ==> Proper(fields[i].kind)
  }

  /** What survives: an empty text stays empty only where the reader's default is empty. */
  ghost predicate Kept(kind: Kind, v: Value)
    requires Has(kind, v)
    decreases kind
  {
    match kind
    case Name(default) => v.text == "" ==> default == ""
    case Many(fields) => forall i :: 0 <= i < |v.records| ==> KeptAll(fields, v.records[i])
    case Table(fields) => forall key :: key in v.table ==> KeptAll(fields, v.table[key])
    case Maybe(fields) => v.Single? ==> KeptAll(fields, v.record)
    case _ => true
  }

  ghost predicate KeptAll(fields: Schema, record: Record)
    requires HasAll(fields, record)
    decreases fields
  {
    forall i :: 0 <= i < |fields| ==> Kept(fields[i].kind, record[i])
  }

  // ---------------------------------------------------------------- what comes back

  /** A field comes back as it was exactly when it is one that survives. */
  lemma {:induction false} FieldRoundTrip(f: Formats, kind: Kind, v: Value)
    requires Faithful(f) && Proper(kind) && Has(kind, v)
    ensures Read(f, kind, Write(f, kind, v)) == v <==> Kept(kind, v)
    decreases kind
  {
    hide ReadRecord;
    hide WriteRecord;
    hide ReadAll;
    hide WriteAll;
    hide Faithful;
    match kind
    case Many(fields) => AllRoundTrip(f, fields, v.records);
    case Table(fields) => TableRoundTrip(f, fields, v.table);
    case Maybe(fields) =>
      if v.Single? {
        RecordRoundTrip(f, fields, v.record);
        SomethingIsWritten(f, fields, v.record);
      }
    case Name(_) => TextRoundTrip(f, kind, v);
    case _ => PlainRoundTrip(f, kind, v);
  }

  lemma SomethingIsWritten(f: Formats, fields: Schema, record: Record)
    requires fields != [] && record != []
    ensures WriteRecord(f, fields, record) != map[]
  {
    assert fields[0].name in WriteRecord(f, fields, record);
  }

  lemma TextRoundTrip(f: Formats, kind: Kind, v: Value)
    requires kind.Name? && v.Text?
    ensures Read(f, kind, Write(f, kind, v)) == v <==> (v.text == "" ==> kind.default == "")
  {
  }

  lemma PlainRoundTrip(f: Formats, kind: Kind, v: Value)
    requires Faithful(f) && Has(kind, v) && !kind.Name? && !kind.Many? && !kind.Table? && !kind.Maybe?
    ensures Read(f, kind, Write(f, kind, v)) == v
  {
    hide ReadRecord;
    hide WriteRecord;
    hide ReadAll;
    hide WriteAll;
    hide HasAll;
  }

  lemma {:induction false} RecordRoundTrip(f: Formats, fields: Schema, record: Record)
    requires Faithful(f) && ProperAll(fields) && HasAll(fields, record)
    ensures ReadRecord(f, fields, WriteRecord(f, fields, record)) == record <==> KeptAll(fields, record)
    decreases fields, 0
  {
    var back := ReadRecord(f, fields, WriteRecord(f, fields, record));
    ReadsFieldwise(f, fields, WriteRecord(f, fields, record));
    forall i | 0 <= i < |fields|
      ensures back[i] == record[i] <==> Kept(fields[i].kind, record[i])
    {
      WritesFieldwise(f, fields, record, i);
      FieldRoundTrip(f, fields[i].kind, record[i]);
    }
  }

  lemma {:induction false} ReadsFieldwise(f: Formats, fields: Schema, members: map<string, Json>)
    ensures var record := ReadRecord(f, fields, members);
            && |record| == |fields|
            && forall i :: 0 <= i < |fields| ==> record[i] == Read(f, fields[i].kind, Get(members, fields[i].name))
  {
    if fields != [] { ReadsFieldwise(f, fields[1..], members); }
  }

  lemma {:induction false} WritesFieldwise(f: Formats, fields: Schema, record: Record, i: nat)
    requires |record| == |fields| && i < |fields|
    requires forall i, j :: 0 <= i < j < |fields| ==> fields[i].name != fields[j].name
    ensures Get(WriteRecord(f, fields, record), fields[i].name) == Write(f, fields[i].kind, record[i])
  {
    if i > 0 { WritesFieldwise(f, fields[1..], record[1..], i - 1); }
  }

  lemma {:induction false} AllRoundTrip(f: Formats, fields: Schema, records: seq<Record>)
    requires Faithful(f) && ProperAll(fields)
    requires forall i :: 0 <= i < |records| ==> HasAll(fields, records[i])
    ensures ReadAll(f, fields, WriteAll(f, fields, records)) == records
            <==> forall i :: 0 <= i < |records| ==> KeptAll(fields, records[i])
    ensures |ReadAll(f, fields, WriteAll(f, fields, records))| == |records|
    decreases fields, |records| + 1
  {
    hide ReadRecord;
    hide WriteRecord;
    hide HasAll;
    hide KeptAll;
    hide ProperAll;
    if records != [] {
      var rest := records[1..];
      RecordRoundTrip(f, fields, records[0]);
      AllRoundTrip(f, fields, rest);
      var written := WriteAll(f, fields, records);
      assert written[1..] == WriteAll(f, fields, rest);
      assert records == [records[0]] + rest;
      var back := ReadAll(f, fields, written);
      assert back[1..] == ReadAll(f, fields, WriteAll(f, fields, rest));
      assert back == records <==> back[0] == records[0] && back[1..] == rest;
      assert (forall i :: 0 <= i < |records| ==> KeptAll(fields, records[i]))
        <==> KeptAll(fields, records[0]) && forall i :: 0 <= i < |rest| ==> KeptAll(fields, rest[i]);
    }
  }

  lemma {:induction false} TableRoundTrip(f: Formats, fields: Schema, table: map<string, Record>)
    requires Faithful(f) && Proper(Table(fields)) && Has(Table(fields), Tabled(table))
    ensures Read(f, Table(fields), Write(f, Table(fields), Tabled(table))) == Tabled(table)
            <==> Kept(Table(fields), Tabled(table))
    decreases fields, 1
  {
    var back := Read(f, Table(fields), Write(f, Table(fields), Tabled(table))).table;
    forall key | key in table
      ensures key in back && (back[key] == table[key] <==> KeptAll(fields, table[key]))
    {
      RecordRoundTrip(f, fields, table[key]);
    }
  }

  // ---------------------------------------------------------------- the source's fields

  const SOURCES := {"tekmetric", "shopmonkey", "autoleap", "mitchell", "csv", "excel", "pdf", "ocr", "manual"}
  const STATUSES := {"pending", "uploading", "parsing", "normalizing", "validating", "awaiting_resolution", "applying",
                     "completed", "failed", "cancelled"}
  const KINDS := {"customer", "vehicle", "repair_history", "invoice", "estimate", "communication", "appointment",
                  "recommendation"}
  const MATCHES := {"phone", "email", "name", "vin", "license_plate", "composite"}
  const ACTIONS := {"keep_existing", "keep_incoming", "merge", "skip"}
  const SEVERITIES := {"info", "warning", "error"}

  /** The three fields every entity ends with. */
  function Tail(): Schema {
    [Field("source", OneOf(SOURCES, "manual")), Field("metadata", Object), Field("row_ref", Raw)]
  }

  predicate IsCommon(name: string) {
    name == "source" || name == "metadata" || name == "row_ref"
  }

  function CustomerOwn(): Schema {
    [Field("external_id", Raw), Field("name", Name("")), Field("phone", Raw), Field("email", Raw),
     Field("address", Raw)]
  }

  function CustomerFields(): Schema {
    CustomerOwn() + Tail()
  }

  function VehicleOwn(): Schema {
    [Field("external_id", Raw), Field("vin", Name("")), Field("year", Raw), Field("make", Raw), Field("model", Raw),
     Field("mileage", Raw), Field("license_plate", Raw), Field("customer_external_id", Raw),
     Field("customer_phone", Raw), Field("customer_name", Raw)]
  }

  function VehicleFields(): Schema {
    VehicleOwn() + Tail()
  }

  function RepairOwn(): Schema {
    [Field("external_id", Raw), Field("vehicle_vin", Raw), Field("vehicle_external_id", Raw),
     Field("customer_external_id", Raw), Field("service_type", Name("general")), Field("description", Name("")),
     Field("cost", Amount), Field("recommendation", Raw), Field("mileage_at_service", Raw),
     Field("performed_at", When)]
  }

  function RepairFields(): Schema {
    RepairOwn() + Tail()
  }

  function InvoiceOwn(): Schema {
    [Field("external_id", Raw), Field("invoice_number", Raw), Field("customer_external_id", Raw),
     Field("vehicle_vin", Raw), Field("amount", Amount), Field("tax", Amount), Field("status", Name("paid")),
     Field("issued_at", When), Field("line_items", Sequence)]
  }

  function InvoiceFields(): Schema {
    InvoiceOwn() + Tail()
  }

  function EstimateOwn(): Schema {
    [Field("external_id", Raw), Field("estimate_number", Raw), Field("customer_external_id", Raw),
     Field("vehicle_vin", Raw), Field("amount", Amount), Field("status", Name("open")), Field("issued_at", When),
     Field("line_items", Sequence)]
  }

  function EstimateFields(): Schema {
    EstimateOwn() + Tail()
  }

  function CommunicationOwn(): Schema {
    [Field("external_id", Raw), Field("customer_external_id", Raw), Field("customer_phone", Raw),
     Field("channel", Name("sms")), Field("direction", Name("inbound")), Field("message", Name("")),
     Field("occurred_at", When)]
  }

  function CommunicationFields(): Schema {
    CommunicationOwn() + Tail()
  }

  function AppointmentOwn(): Schema {
    [Field("external_id", Raw), Field("customer_external_id", Raw), Field("vehicle_vin", Raw), Field("start", When),
     Field("end", When), Field("repair_type", Name("general")), Field("status", Name("completed")),
     Field("notes", Raw)]
  }

  function AppointmentFields(): Schema {
    AppointmentOwn() + Tail()
  }

  function RecommendationOwn(): Schema {
    [Field("external_id", Raw), Field("vehicle_vin", Raw), Field("customer_external_id", Raw), Field("text", Name("")),
     Field("priority", Name("normal")), Field("status", Name("open"))]
  }

  function RecommendationFields(): Schema {
    RecommendationOwn() + Tail()
  }

  function BatchFields(): Schema {
    [Field("customers", Many(CustomerFields())), Field("vehicles", Many(VehicleFields())),
     Field("repairs", Many(RepairFields())), Field("invoices", Many(InvoiceFields())),
     Field("estimates", Many(EstimateFields())), Field("communications", Many(CommunicationFields())),
     Field("appointments", Many(AppointmentFields())), Field("recommendations", Many(RecommendationFields())),
     Field("warnings", Texts)]
  }

  function IssueFields(): Schema {
    [Field("id", Id), Field("severity", OneOf(SEVERITIES, "warning")), Field("code", Name("")),
     Field("message", Name("")), Field("entity_kind", MaybeOneOf(KINDS)), Field("entity_ref", Raw),
     Field("details", Object)]
  }

  function DuplicateFields(): Schema {
    [Field("id", Id), Field("entity_kind", OneOf(KINDS, "customer")), Field("match_type", OneOf(MATCHES, "composite")),
     Field("confidence", Count), Field("incoming_ref", Name("")), Field("existing_ref", Raw),
     Field("incoming_snapshot", Object), Field("existing_snapshot", Object),
     Field("suggested_action", OneOf(ACTIONS, "merge")), Field("resolved_action", MaybeOneOf(ACTIONS)),
     Field("resolved", Bit)]
  }

  function CountFields(): Schema {
    [Field("imported", Count), Field("merged", Count), Field("skipped", Count), Field("failed", Count)]
  }

  function ReportFields(): Schema {
    [Field("job_id", Id), Field("source", OneOf(SOURCES, "manual")), Field("status", OneOf(STATUSES, "pending")),
     Field("entity_counts", Table(CountFields())), Field("validation_issues", Many(IssueFields())),
     Field("duplicates_resolved", Count), Field("duplicates_pending", Count), Field("duration_ms", Count),
     Field("warnings", Texts), Field("created_at", When), Field("completed_at", When)]
  }

  function EngineFields(): Schema {
    [Field("duplicates", Many(DuplicateFields())), Field("validation_issues", Many(IssueFields())),
     Field("batch", Maybe(BatchFields())), Field("progress_processed", Count), Field("progress_total", Count),
     Field("progress_updated_at", When)]
  }

  ghost predicate NoDoubles(fields: Schema) {
    forall i, j :: 0 <= i < j < |fields| ==> fields[i].name != fields[j].name
  }

  /** No field is a list or record of records. */
  predicate IsFlat(fields: Schema) {
    forall i :: 0 <= i < |fields| ==> !fields[i].kind.Many? && !fields[i].kind.Table? && !fields[i].kind.Maybe?
  }

  lemma FlatIsProper(fields: Schema)
    requires NoDoubles(fields) && IsFlat(fields)
    ensures ProperAll(fields)
  {
  }

  /** An entity's own fields and the common ones. */
  lemma OwnAndTail(own: Schema)
    requires NoDoubles(own) && IsFlat(own)
    requires forall i :: 0 <= i < |own| ==> !IsCommon(own[i].name)
    ensures ProperAll(own + Tail()) && IsFlat(own + Tail())
  {
    hide ProperAll;
    hide IsFlat;
    hide Tail;
    hide IsCommon;
    hide NoDoubles;
    TailNames();
    Apart(own, Tail());
    TailIsFlat(own);
    FlatIsProper(own + Tail());
  }

  lemma TailNames()
    ensures NoDoubles(Tail())
    ensures forall i :: 0 <= i < |Tail()| ==> IsCommon(Tail()[i].name)
  {
  }

  lemma Apart(own: Schema, rest: Schema)
    requires NoDoubles(own) && NoDoubles(rest)
    requires forall i :: 0 <= i < |own| ==> !IsCommon(own[i].name)
    requires forall i :: 0 <= i < |rest| ==> IsCommon(rest[i].name)
    ensures NoDoubles(own + rest)
  {
    hide IsCommon;
  }

  lemma TailIsFlat(own: Schema)
    requires IsFlat(own)
    ensures IsFlat(own + Tail())
  {
  }

  lemma CustomerIsProper()
    ensures ProperAll(CustomerFields()) && IsFlat(CustomerFields())
  {
    hide ProperAll;
    OwnAndTail(CustomerOwn());
  }

  lemma VehicleIsProper()
    ensures ProperAll(VehicleFields()) && IsFlat(VehicleFields())
  {
    hide ProperAll;
    OwnAndTail(VehicleOwn());
  }

  lemma RepairIsProper()
    ensures ProperAll(RepairFields()) && IsFlat(RepairFields())
  {
    hide ProperAll;
    OwnAndTail(RepairOwn());
  }

  lemma InvoiceIsProper()
    ensures ProperAll(InvoiceFields()) && IsFlat(InvoiceFields())
  {
    hide ProperAll;
    OwnAndTail(InvoiceOwn());
  }

  lemma EstimateIsProper()
    ensures ProperAll(EstimateFields()) && IsFlat(EstimateFields())
  {
    hide ProperAll;
    OwnAndTail(EstimateOwn());
  }

  lemma CommunicationIsProper()
    ensures ProperAll(CommunicationFields()) && IsFlat(CommunicationFields())
  {
    hide ProperAll;
    OwnAndTail(CommunicationOwn());
  }

  lemma AppointmentIsProper()
    ensures ProperAll(AppointmentFields()) && IsFlat(AppointmentFields())
  {
    hide ProperAll;
    OwnAndTail(AppointmentOwn());
  }

  lemma RecommendationIsProper()
    ensures ProperAll(RecommendationFields()) && IsFlat(RecommendationFields())
  {
    hide ProperAll;
    OwnAndTail(RecommendationOwn());
  }

  lemma IssueIsProper()
    ensures ProperAll(IssueFields())
  {
    hide ProperAll;
    FlatIsProper(IssueFields());
  }

  lemma DuplicateIsProper()
    ensures ProperAll(DuplicateFields())
  {
    hide ProperAll;
    FlatIsProper(DuplicateFields());
  }

  lemma CountIsProper()
    ensures ProperAll(CountFields())
  {
    hide ProperAll;
    FlatIsProper(CountFields());
  }

  lemma BatchIsProper()
    ensures ProperAll(BatchFields())
  {
    hide CustomerFields;
    hide VehicleFields;
    hide RepairFields;
    hide InvoiceFields;
    hide EstimateFields;
    hide CommunicationFields;
    hide AppointmentFields;
    hide RecommendationFields;
    CustomerIsProper();
    VehicleIsProper();
    RepairIsProper();
    InvoiceIsProper();
    EstimateIsProper();
    CommunicationIsProper();
    AppointmentIsProper();
    RecommendationIsProper();
    assert NoDoubles(BatchFields());
  }

  lemma ReportIsProper()
    ensures ProperAll(ReportFields())
  {
    hide IssueFields;
    hide CountFields;
    IssueIsProper();
    CountIsProper();
    assert NoDoubles(ReportFields());
  }

  lemma EngineIsProper()
    ensures ProperAll(EngineFields())
  {
    hide IssueFields;
    hide DuplicateFields;
    hide BatchFields;
    IssueIsProper();
    DuplicateIsProper();
    BatchIsProper();
    assert NoDoubles(EngineFields());
  }

  // ---------------------------------------------------------------- which texts are lost

  /** A reader replaces the field when it is empty. */
  predicate Defaulted(field: Field) {
    field.kind.Name? && field.kind.default != ""
  }

  lemma FlatKept(fields: Schema, record: Record)
    requires IsFlat(fields) && HasAll(fields, record)
    ensures KeptAll(fields, record) <==> forall i :: 0 <= i < |fields| && Defaulted(fields[i]) ==> record[i] != Text("")
  {
    forall i | 0 <= i < |fields|
      ensures Kept(fields[i].kind, record[i]) <==> (Defaulted(fields[i]) ==> record[i] != Text(""))
    {
      assert Has(fields[i].kind, record[i]);
    }
  }

  /** Of a record with two such texts, at `p` and `q`, nothing is lost exactly when neither is empty. */
  lemma KeptUpTo(fields: Schema, record: Record, p: nat, q: nat)
    requires IsFlat(fields) && HasAll(fields, record) && p < |fields| && q < |fields|
    requires forall i :: 0 <= i < |fields| ==> (Defaulted(fields[i]) <==> i == p || i == q)
    ensures KeptAll(fields, record) <==> record[p] != Text("") && record[q] != Text("")
  {
    FlatKept(fields, record);
    assert Defaulted(fields[p]) && Defaulted(fields[q]);
  }

  lemma RepairTexts(record: Record)
    requires HasAll(RepairFields(), record)
    ensures KeptAll(RepairFields(), record) <==> record[4] != Text("")
  {
    hide KeptAll;
    hide HasAll;
    KeptUpTo(RepairFields(), record, 4, 4);
  }

  lemma InvoiceTexts(record: Record)
    requires HasAll(InvoiceFields(), record)
    ensures KeptAll(InvoiceFields(), record) <==> record[6] != Text("")
  {
    hide KeptAll;
    hide HasAll;
    KeptUpTo(InvoiceFields(), record, 6, 6);
  }

  lemma EstimateTexts(record: Record)
    requires HasAll(EstimateFields(), record)
    ensures KeptAll(EstimateFields(), record) <==> record[5] != Text("")
  {
    hide KeptAll;
    hide HasAll;
    KeptUpTo(EstimateFields(), record, 5, 5);
  }

  lemma CommunicationTexts(record: Record)
    requires HasAll(CommunicationFields(), record)
    ensures KeptAll(CommunicationFields(), record) <==> record[3] != Text("") && record[4] != Text("")
  {
    hide KeptAll;
    hide HasAll;
    KeptUpTo(CommunicationFields(), record, 3, 4);
  }

  lemma AppointmentTexts(record: Record)
    requires HasAll(AppointmentFields(), record)
    ensures KeptAll(AppointmentFields(), record) <==> record[5] != Text("") && record[6] != Text("")
  {
    hide KeptAll;
    hide HasAll;
    KeptUpTo(AppointmentFields(), record, 5, 6);
  }

  lemma RecommendationTexts(record: Record)
    requires HasAll(RecommendationFields(), record)
    ensures KeptAll(RecommendationFields(), record) <==> record[4] != Text("") && record[5] != Text("")
  {
    hide KeptAll;
    hide HasAll;
    KeptUpTo(RecommendationFields(), record, 4, 5);
  }

  /** No reader below this kind has a default that is not empty. */
  ghost predicate Lossless(kind: Kind)
    decreases kind
  {
    match kind
    case Name(default) => default == ""
    case Many(fields) => LosslessAll(fields)
    case Table(fields) => LosslessAll(fields)
    case Maybe(fields) => LosslessAll(fields)
    case _ => true
  }

  ghost predicate LosslessAll(fields: Schema)
    decreases fields
  {
    forall i :: 0 <= i < |fields| ==> Lossless(fields[i].kind)
  }

  lemma {:induction false} LosslessKeeps(kind: Kind, v: Value)
    requires Lossless(kind) && Has(kind, v)
    ensures Kept(kind, v)
    decreases kind
  {
    match kind
    case Many(fields) =>
      forall i | 0 <= i < |v.records| ensures KeptAll(fields, v.records[i]) { LosslessKeepsAll(fields, v.records[i]); }
    case Table(fields) =>
      forall key | key in v.table ensures KeptAll(fields, v.table[key]) { LosslessKeepsAll(fields, v.table[key]); }
    case Maybe(fields) => if v.Single? { LosslessKeepsAll(fields, v.record); }
    case _ =>
  }

  lemma {:induction false} LosslessKeepsAll(fields: Schema, record: Record)
    requires LosslessAll(fields) && HasAll(fields, record)
    ensures KeptAll(fields, record)
    decreases fields
  {
    forall i | 0 <= i < |fields|
      ensures Kept(fields[i].kind, record[i])
    {
      LosslessKeeps(fields[i].kind, record[i]);
    }
  }

  lemma CustomersAreLossless()
    ensures Lossless(Many(CustomerFields())) && Lossless(Many(VehicleFields()))
  {
  }

  /** The default choice is one of the choices. */
  predicate HasDefaults(fields: Schema) {
    forall i :: 0 <= i < |fields| ==>
      match fields[i].kind
      case OneOf(names, standard) => standard in names && standard != ""
      case _ => true
  }

  /** A value with nothing in it. */
  function Blank(kind: Kind): Value {
    match kind
    case Name(_) => Text("")
    case Amount => Money("0")
    case OneOf(_, standard) => Choice(standard)
    case Id => Ident(0)
    case Count => Integer(0)
    case Bit => Flag(false)
    case Object => Dict(map[])
    case Sequence => List([])
    case Texts => Words([])
    case _ => Missing
  }

  function BlankRecord(fields: Schema): Record {
    seq(|fields|, i requires 0 <= i < |fields| => Blank(fields[i].kind))
  }

  /** Some value of this kind does not come back. */
  ghost predicate Loses(kind: Kind) {
    exists v :: Has(kind, v) && !Kept(kind, v)
  }

  /** A list loses its blank entity when one of the entity's texts has a default. */
  lemma BlankIsLost(fields: Schema, p: nat)
    requires IsFlat(fields) && HasDefaults(fields) && p < |fields| && Defaulted(fields[p])
    ensures Loses(Many(fields))
  {
    var record := BlankRecord(fields);
    BlankHas(fields);
    FlatKept(fields, record);
    assert record[p] == Text("");
    var v := Records([record]);
    assert v.records[0] == record;
    assert Has(Many(fields), v) && !Kept(Many(fields), v);
  }

  lemma BlankHas(fields: Schema)
    requires IsFlat(fields) && HasDefaults(fields)
    ensures HasAll(fields, BlankRecord(fields))
  {
    forall i | 0 <= i < |fields|
      ensures Has(fields[i].kind, BlankRecord(fields)[i])
    {
      assert !fields[i].kind.Many? && !fields[i].kind.Table? && !fields[i].kind.Maybe?;
    }
  }

  lemma LosslessNeverLoses(kind: Kind)
    requires Lossless(kind)
    ensures !Loses(kind)
  {
    hide Kept;
    if v :| Has(kind, v) && !Kept(kind, v) {
      LosslessKeeps(kind, v);
    }
  }

  lemma RepairsAndInvoicesLose()
    ensures Loses(Many(RepairFields())) && Loses(Many(InvoiceFields())) && Loses(Many(EstimateFields()))
  {
    hide Loses;
    BlankIsLost(RepairFields(), 4);
    BlankIsLost(InvoiceFields(), 6);
    BlankIsLost(EstimateFields(), 5);
  }

  lemma CommunicationsLose()
    ensures Loses(Many(CommunicationFields())) && Loses(Many(AppointmentFields()))
    ensures Loses(Many(RecommendationFields()))
  {
    hide Loses;
    BlankIsLost(CommunicationFields(), 3);
    BlankIsLost(AppointmentFields(), 5);
    BlankIsLost(RecommendationFields(), 4);
  }

  /** Of a batch, customers, vehicles and warnings always come back whole; each other list has entities that do not. */
  lemma WhichListsCanLose(list: nat)
    requires list < |BatchFields()|
    ensures Loses(BatchFields()[list].kind) <==> list != 0 && list != 1 && list != 8
  {
    hide CustomerFields;
    hide VehicleFields;
    hide RepairFields;
    hide InvoiceFields;
    hide EstimateFields;
    hide CommunicationFields;
    hide AppointmentFields;
    hide RecommendationFields;
    hide Loses;
    hide LosslessAll;
    CustomersAreLossless();
    LosslessNeverLoses(Many(CustomerFields()));
    LosslessNeverLoses(Many(VehicleFields()));
    LosslessNeverLoses(Texts);
    RepairsAndInvoicesLose();
    CommunicationsLose();
  }

  lemma IssuesAreLossless()
    ensures Lossless(Many(IssueFields())) && Lossless(Many(DuplicateFields()))
  {
  }

  lemma ReportIsLossless()
    ensures Lossless(Maybe(ReportFields()))
  {
    hide IssueFields;
    IssuesAreLossless();
    assert LosslessAll(CountFields());
  }

  lemma OnlyOneCanLose(fields: Schema, record: Record, p: nat)
    requires HasAll(fields, record) && p < |fields|
    requires forall i :: 0 <= i < |fields| && i != p ==> Lossless(fields[i].kind)
    ensures Has(fields[p].kind, record[p])
    ensures KeptAll(fields, record) <==> Kept(fields[p].kind, record[p])
  {
    forall i | 0 <= i < |fields| && i != p
      ensures Kept(fields[i].kind, record[i])
    {
      LosslessKeeps(fields[i].kind, record[i]);
    }
  }

  lemma EngineShape()
    ensures |EngineFields()| == 6 && EngineFields()[2].kind == Maybe(BatchFields())
    ensures forall i :: 0 <= i < 6 && i != 2 ==> Lossless(EngineFields()[i].kind)
  {
    hide IssueFields;
    hide DuplicateFields;
    hide BatchFields;
    hide LosslessAll;
    IssuesAreLossless();
  }

  /** Of the engine's part only the batch can lose anything. */
  lemma EngineKept(engine: Record)
    requires HasAll(EngineFields(), engine)
    ensures |engine| == 6 && Has(Maybe(BatchFields()), engine[2])
    ensures KeptAll(EngineFields(), engine) <==> Kept(Maybe(BatchFields()), engine[2])
  {
    hide EngineFields;
    hide BatchFields;
    hide KeptAll;
    hide HasAll;
    hide Has;
    hide Kept;
    hide Lossless;
    HasAllLength(EngineFields(), engine);
    EngineShape();
    OnlyOneCanLose(EngineFields(), engine, 2);
  }

  // ---------------------------------------------------------------- the job

  const ENGINE_KEY := "__engine__"

  /** `engine` holds duplicates, issues, batch and progress counts; credentials and the raw payload are never packed. */
  datatype Job = Job(
    source: string, status: string, stage: string, percent: int, message: string, options: map<string, Json>,
    engine: Record, report: Value)

  datatype Row = Row(source: string, status: string, percent: int, message: string, options: Json, report: Json)

  ghost predicate IsJob(job: Job) {
    && job.source in SOURCES && job.status in STATUSES && job.stage in STATUSES
    && HasAll(EngineFields(), job.engine)
    && Has(Maybe(ReportFields()), job.report)
  }

  function Pack(f: Formats, job: Job): Row {
    Row(job.source, job.status, job.percent, job.message,
        Obj(job.options[ENGINE_KEY := Obj(WriteRecord(f, EngineFields(), job.engine))]),
        Write(f, Maybe(ReportFields()), job.report))
  }

  /** The options without the engine's key, and what was under it. */
  function UnpackOptions(options: Json): (map<string, Json>, map<string, Json>) {
    if !options.Obj? then (map[], map[]) else
      var engine := Get(options.members, ENGINE_KEY);
      (options.members - {ENGINE_KEY}, if engine.Obj? then engine.members else map[])
  }

  function Unpack(f: Formats, row: Row): Job {
    var (options, engine) := UnpackOptions(row.options);
    var status := Read(f, OneOf(STATUSES, "pending"), Str(row.status)).name;
    Job(Read(f, OneOf(SOURCES, "manual"), Str(row.source)).name, status, status, row.percent, row.message, options,
        ReadRecord(f, EngineFields(), engine), Read(f, Maybe(ReportFields()), row.report))
  }

  /**
   A job read back is the job packed exactly when its options do not use the engine's key, its progress names its
   status, and no text of its batch is empty where the reader puts a default in.
   */
  lemma JobRoundTrip(f: Formats, job: Job)
    requires Faithful(f) && IsJob(job)
    ensures |job.engine| == 6 && Has(Maybe(BatchFields()), job.engine[2])
    ensures Unpack(f, Pack(f, job)) == job <==>
            ENGINE_KEY !in job.options && job.stage == job.status && Kept(Maybe(BatchFields()), job.engine[2])
  {
    hide Read;
    hide Write;
    hide ReadRecord;
    hide WriteRecord;
    hide BatchFields;
    EngineKept(job.engine);
    EngineIsProper();
    RecordRoundTrip(f, EngineFields(), job.engine);
    ReportIsProper();
    ReportIsLossless();
    LosslessKeeps(Maybe(ReportFields()), job.report);
    FieldRoundTrip(f, Maybe(ReportFields()), job.report);
    EnumsRoundTrip(f, job.source, job.status);
    OptionsRoundTrip(job.options, WriteRecord(f, EngineFields(), job.engine));
  }

  lemma EnumsRoundTrip(f: Formats, source: string, status: string)
    requires source in SOURCES && status in STATUSES
    ensures Read(f, OneOf(SOURCES, "manual"), Str(source)) == Choice(source)
    ensures Read(f, OneOf(STATUSES, "pending"), Str(status)) == Choice(status)
  {
  }

  lemma OptionsRoundTrip(options: map<string, Json>, engine: map<string, Json>)
    ensures var (left, right) := UnpackOptions(Obj(options[ENGINE_KEY := Obj(engine)]));
            right == engine && (left == options <==> ENGINE_KEY !in options)
  {
    var packed := options[ENGINE_KEY := Obj(engine)];
    if ENGINE_KEY !in options {
      assert packed - {ENGINE_KEY} == options;
    }
  }

  /** What is lost, shown on repairs: an empty service type comes back as the default, whatever else the row holds. */
  lemma EmptyServiceTypeComesBackAsGeneral(f: Formats, record: Record)
    requires HasAll(RepairFields(), record) && record[4] == Text("")
    ensures ReadRecord(f, RepairFields(), WriteRecord(f, RepairFields(), record))[4] == Text("general")
  {
    hide ReadRecord;
    hide WriteRecord;
    hide HasAll;
    RepairIsProper();
    ReadsFieldwise(f, RepairFields(), WriteRecord(f, RepairFields(), record));
    HasAllLength(RepairFields(), record);
    WritesFieldwise(f, RepairFields(), record, 4);
  }

  /** Any such text: empty, it comes back as the reader's default. */
  lemma EmptyTextComesBackAs(f: Formats, fields: Schema, record: Record, p: nat, default: string)
    requires ProperAll(fields) && HasAll(fields, record) && p < |fields|
    requires fields[p].kind == Name(default) && record[p] == Text("")
    ensures |ReadRecord(f, fields, WriteRecord(f, fields, record))| == |fields|
    ensures ReadRecord(f, fields, WriteRecord(f, fields, record))[p] == Text(default)
  {
    hide ReadRecord;
    hide WriteRecord;
    ReadsFieldwise(f, fields, WriteRecord(f, fields, record));
    WritesFieldwise(f, fields, record, p);
  }

  /** The defaults of the readers, text by text. */
  lemma ReaderDefaults()
    ensures RepairFields()[4] == Field("service_type", Name("general"))
    ensures InvoiceFields()[6] == Field("status", Name("paid"))
    ensures EstimateFields()[5] == Field("status", Name("open"))
    ensures CommunicationFields()[3] == Field("channel", Name("sms"))
    ensures CommunicationFields()[4] == Field("direction", Name("inbound"))
    ensures AppointmentFields()[5] == Field("repair_type", Name("general"))
    ensures AppointmentFields()[6] == Field("status", Name("completed"))
    ensures RecommendationFields()[4] == Field("priority", Name("normal"))
    ensures RecommendationFields()[5] == Field("status", Name("open"))
  {
  }

  lemma HasAllLength(fields: Schema, record: Record)
    requires HasAll(fields, record)
    ensures |record| == |fields|
  {
  }

  // ---------------------------------------------------------------- what the program packs

  /** `str` of anything but a text is a text. */
  ghost predicate ShowsText(f: Formats) {
    forall json: Json {:trigger f.show(json)} :: !json.Str? ==> f.show(json) != ""
  }

  /** `str(row.get(a) or row.get(b) or default)` */
  function FirstText(f: Formats, row: map<string, Json>, keys: seq<string>, default: string): string {
    if keys == [] then default
    else if Truthy(Get(row, keys[0])) then AsText(f, Get(row, keys[0]))
    else FirstText(f, row, keys[1..], default)
  }

  lemma {:induction false} FirstTextIsNotEmpty(f: Formats, row: map<string, Json>, keys: seq<string>, default: string)
    requires ShowsText(f) && default != ""
    ensures FirstText(f, row, keys, default) != ""
  {
    if keys != [] { FirstTextIsNotEmpty(f, row, keys[1..], default); }
  }

  /** The columns a normaliser looks for a text in. */
  function Columns(name: string): seq<string> {
    if name == "service_type" then ["service_type", "repair_type"] else [name]
  }

  /** What the normaliser of a list puts in when the row has no such text. */
  function RowDefault(list: nat, name: string): string {
    match list
    case 2 => "general"
    case 3 => "paid"
    case 4 => "open"
    case 5 => if name == "channel" then "sms" else "inbound"
    case 6 => if name == "repair_type" then "general" else "completed"
    case _ => if name == "priority" then "normal" else "open"
  }

  /** The texts a reader might replace are the ones the normaliser of the list makes of some row. */
  ghost predicate BuiltFrom(f: Formats, row: map<string, Json>, list: nat, fields: Schema, record: Record)
    requires |record| == |fields|
  {
    forall i :: 0 <= i < |fields| && Defaulted(fields[i]) ==>
      record[i] == Text(FirstText(f, row, Columns(fields[i].name), RowDefault(list, fields[i].name)))
  }

  ghost predicate Normalized(f: Formats, list: nat, fields: Schema, v: Value) {
    v.Records? ==> forall i :: 0 <= i < |v.records| ==>
      |v.records[i]| == |fields| && exists row :: BuiltFrom(f, row, list, fields, v.records[i])
  }

  /** Every entity of the batch was built by the normalisers. */
  ghost predicate NormalizedBatch(f: Formats, batch: Record) {
    && |batch| == |BatchFields()|
    && forall list :: 0 <= list < |BatchFields()| && BatchFields()[list].kind.Many? ==>
      Normalized(f, list, BatchFields()[list].kind.fields, batch[list])
  }

  lemma BuiltIsKept(f: Formats, row: map<string, Json>, list: nat, fields: Schema, record: Record)
    requires ShowsText(f) && IsFlat(fields) && HasAll(fields, record) && |record| == |fields|
    requires BuiltFrom(f, row, list, fields, record)
    ensures KeptAll(fields, record)
  {
    hide KeptAll;
    hide HasAll;
    FlatKept(fields, record);
    forall i | 0 <= i < |fields| && Defaulted(fields[i])
      ensures record[i] != Text("")
    {
      FirstTextIsNotEmpty(f, row, Columns(fields[i].name), RowDefault(list, fields[i].name));
    }
  }

  lemma NormalizedIsKept(f: Formats, list: nat, fields: Schema, v: Value)
    requires ShowsText(f) && IsFlat(fields) && Has(Many(fields), v) && Normalized(f, list, fields, v)
    ensures Kept(Many(fields), v)
  {
    hide KeptAll;
    hide HasAll;
    hide BuiltFrom;
    forall i | 0 <= i < |v.records|
      ensures KeptAll(fields, v.records[i])
    {
      var row :| BuiltFrom(f, row, list, fields, v.records[i]);
      BuiltIsKept(f, row, list, fields, v.records[i]);
    }
  }

  lemma BatchIsFlatLists()
    ensures |BatchFields()| == 9 && BatchFields()[8].kind.Texts?
    ensures forall list :: 0 <= list < 8 ==> BatchFields()[list].kind.Many? && IsFlat(BatchFields()[list].kind.fields)
  {
    hide CustomerFields;
    hide VehicleFields;
    hide RepairFields;
    hide InvoiceFields;
    hide EstimateFields;
    hide CommunicationFields;
    hide AppointmentFields;
    hide RecommendationFields;
    hide IsFlat;
    CustomerIsProper();
    VehicleIsProper();
    RepairIsProper();
    InvoiceIsProper();
    EstimateIsProper();
    CommunicationIsProper();
    AppointmentIsProper();
    RecommendationIsProper();
  }

  lemma NormalizedBatchSurvives(f: Formats, batch: Record)
    requires ShowsText(f) && HasAll(BatchFields(), batch) && NormalizedBatch(f, batch)
    ensures KeptAll(BatchFields(), batch)
  {
    hide BatchFields;
    hide IsFlat;
    hide Normalized;
    BatchIsFlatLists();
    var fields := BatchFields();
    forall list | 0 <= list < |fields|
      ensures Kept(fields[list].kind, batch[list])
    {
      if list < 8 {
        assert fields[list].kind == Many(fields[list].kind.fields);
        NormalizedIsKept(f, list, fields[list].kind.fields, batch[list]);
      }
    }
  }

  /** With a batch from the normalisers, or none yet, a job comes back exactly under the two other conditions. */
  lemma NormalizedJobRoundTrip(f: Formats, job: Job)
    requires Faithful(f) && ShowsText(f) && IsJob(job)
    requires |job.engine| == 6 && (job.engine[2].Single? ==> NormalizedBatch(f, job.engine[2].record))
    ensures Unpack(f, Pack(f, job)) == job <==> ENGINE_KEY !in job.options && job.stage == job.status
  {
    hide Unpack;
    hide Pack;
    hide BatchFields;
    hide NormalizedBatch;
    JobRoundTrip(f, job);
    if job.engine[2].Single? {
      NormalizedBatchSurvives(f, job.engine[2].record);
    }
  }

  // ---------------------------------------------------------------- what was read once

  /** Nothing a reader returns can be lost by the next round. */
  lemma {:induction false} ReadSurvives(f: Formats, kind: Kind, json: Json)
    requires ShowsText(f) && Has(kind, Read(f, kind, json))
    ensures Kept(kind, Read(f, kind, json))
    decreases kind
  {
    hide ReadRecord;
    hide ReadAll;
    hide KeptAll;
    hide HasAll;
    match kind
    case Many(fields) => if json.Arr? { ReadAllSurvives(f, fields, json.items); }
    case Table(fields) =>
      var table := Read(f, kind, json).table;
      forall key | key in table
        ensures KeptAll(fields, table[key])
      {
        ReadRecordSurvives(f, fields, json.members[key].members);
      }
    case Maybe(fields) => if json.Obj? && json.members != map[] { ReadRecordSurvives(f, fields, json.members); }
    case _ =>
  }

  lemma {:induction false} ReadRecordSurvives(f: Formats, fields: Schema, members: map<string, Json>)
    requires ShowsText(f) && HasAll(fields, ReadRecord(f, fields, members))
    ensures KeptAll(fields, ReadRecord(f, fields, members))
    decreases fields, 0
  {
    ReadsFieldwise(f, fields, members);
    forall i | 0 <= i < |fields|
      ensures Kept(fields[i].kind, ReadRecord(f, fields, members)[i])
    {
      ReadSurvives(f, fields[i].kind, Get(members, fields[i].name));
    }
  }

  lemma {:induction false} ReadAllSurvives(f: Formats, fields: Schema, items: seq<Json>)
    requires ShowsText(f)
    requires forall i :: 0 <= i < |ReadAll(f, fields, items)| ==> HasAll(fields, ReadAll(f, fields, items)[i])
    ensures forall i :: 0 <= i < |ReadAll(f, fields, items)| ==> KeptAll(fields, ReadAll(f, fields, items)[i])
    decreases fields, |items| + 1
  {
    hide KeptAll;
    hide HasAll;
    hide ReadRecord;
    if items != [] {
      var all, rest := ReadAll(f, fields, items), ReadAll(f, fields, items[1..]);
      var skipped := |all| - |rest|;
      assert forall i :: 0 <= i < |rest| ==> rest[i] == all[i + skipped];
      ReadAllSurvives(f, fields, items[1..]);
      if items[0].Obj? {
        assert all[0] == ReadRecord(f, fields, items[0].members);
        ReadRecordSurvives(f, fields, items[0].members);
      }
    }
  }

  /** A job that has been read from a row once comes back whole from then on. */
  lemma ReadJobRoundTrips(f: Formats, row: Row)
    requires Faithful(f) && ShowsText(f) && IsJob(Unpack(f, row))
    ensures Unpack(f, Pack(f, Unpack(f, row))) == Unpack(f, row)
  {
    hide Read;
    hide Pack;
    hide ReadRecord;
    hide HasAll;
    hide KeptAll;
    hide EngineFields;
    hide BatchFields;
    hide ReportFields;
    var job := Unpack(f, row);
    JobRoundTrip(f, job);
    EngineKept(job.engine);
    ReadRecordSurvives(f, EngineFields(), UnpackOptions(row.options).1);
  }
}
