/** A fact's journey: event to journal record, record to queue payload, payload back to event. */
module EventTypes {
  import opened SecretNames

  datatype Option<T> = None | Some(value: T)

  /** A field's value. `Other` is any JSON number, boolean, list or object: it crosses unchanged. */
  datatype Value = Null | Text(text: string) | Uuid(id: nat) | Time(at: int) | Other(json: nat)

  /** One dataclass field: its default, if it has one, and whether its annotation is, or is a union
      with, a uuid or a datetime. */
  datatype Field = Field(name: string, default: Option<Value>, uuid: bool, time: bool)

  /** A concrete event class. `scoped` is the organization mixin. */
  datatype EventClass = EventClass(fields: seq<Field>, scoped: bool)

  type Values = map<string, Value>

  /** How uuids and datetimes are written and read. */
  datatype Format = Format(
    uuidText: nat -> string, parseUuid: string -> Option<nat>,
    timeText: int -> string, parseTime: string -> Option<int>)

  const MASK := "***"

  /** What the standard library promises: each format reads back, neither reads the other or the mask. */
  ghost predicate Lawful(f: Format) {
    && (forall u: nat :: f.parseUuid(f.uuidText(u)) == Some(u))
    && (forall t: int :: f.parseTime(f.timeText(t)) == Some(t))
    && (forall t: int :: f.parseUuid(f.timeText(t)) == None)
    && (forall u: nat :: f.parseTime(f.uuidText(u)) == None)
    && f.parseUuid(MASK) == None && f.parseTime(MASK) == None
  }

  // ── Classes ───────────────────────────────────────────────────────────────────────────────────

  function FieldNames(fields: seq<Field>): set<string> { set f | f in fields :: f.name }

  ghost predicate DistinctNames(fields: seq<Field>) {
    forall i, j :: 0 <= i < j < |fields| ==> fields[i].name != fields[j].name
  }

  ghost predicate Declares(fields: seq<Field>, name: string, uuid: bool, time: bool) {
    exists field :: field in fields && field.name == name && field.uuid == uuid && field.time == time
  }

  /** Every event has the base's four fields (a subclass may make the first three required), and an
      organization-scoped one a required `org_id`. */
  ghost predicate HasBase(cls: EventClass) {
    && DistinctNames(cls.fields)
    && Declares(cls.fields, "user_id", true, false)
    && Declares(cls.fields, "entity_id", true, false)
    && Declares(cls.fields, "entity_name", false, false)
    && Field("created_at", Some(Null), false, true) in cls.fields
    && (cls.scoped ==> Field("org_id", None, true, false) in cls.fields)
  }

  /** A lifted field never holds a datetime: its column is a uuid or a text. */
  ghost predicate IsEvent(cls: EventClass, values: Values) {
    && HasBase(cls)
    && values.Keys == FieldNames(cls.fields)
    && (forall name :: name in LIFTED && name in values ==> !values[name].Time?)
  }

  // ── Event to record ───────────────────────────────────────────────────────────────────────────

  const LIFTED: set<string> := {"user_id", "org_id", "entity_id", "entity_name"}

  /** A journal record: the lifted columns, the remaining fields, and what the journal adds. */
  datatype Record = Record(columns: Values, payload: Values, id: nat, createdAt: int, requestId: Option<nat>)

  function Written(f: Format, v: Value): Value {
    match v
    case Uuid(u) => Text(f.uuidText(u))
    case Time(t) => Text(f.timeText(t))
    case _ => v
  }

  /** One field of the fact's payload: a secret's value never gets there. */
  function PayloadValue(f: Format, name: string, v: Value): Value {
    if IsSecretName(name) then if v == Null then Null else Text(MASK) else Written(f, v)
  }

  function Column(scoped: bool, values: Values, name: string): Value {
    if name == "org_id" && !scoped then Null else if name in values then values[name] else Null
  }

  function EventToRecord(
    f: Format, cls: EventClass, values: Values, id: nat, createdAt: int, requestId: Option<nat>): Record
  {
    Record(map name | name in LIFTED :: Column(cls.scoped, values, name),
           map name | name in values && name !in LIFTED && name != "created_at" :: PayloadValue(f, name, values[name]),
           id, createdAt, requestId)
  }

  // ── Record to payload ─────────────────────────────────────────────────────────────────────────

  function UuidWritten(f: Format, v: Value): Value { if v.Uuid? then Text(f.uuidText(v.id)) else v }

  /** Record columns, creation time, request and event ids over the fact's own fields. */
  function TaskPayload(f: Format, record: Record): Values {
    (record.payload
     + (map name | name in record.columns :: UuidWritten(f, record.columns[name])))
    ["created_at" := Text(f.timeText(record.createdAt))]
    ["request_id" := if record.requestId.Some? then Text(f.uuidText(record.requestId.value)) else Null]
    ["event_id" := Text(f.uuidText(record.id))]
  }

  // ── Payload to event ──────────────────────────────────────────────────────────────────────────

  datatype Rebuilt = Event(values: Values) | TypeError

  function UuidParsed(f: Format, field: Field, v: Value): Value {
    if field.uuid && v.Text? && f.parseUuid(v.text).Some? then Uuid(f.parseUuid(v.text).value) else v
  }

  function TimeParsed(f: Format, field: Field, v: Value): Value {
    if field.time && v.Text? && f.parseTime(v.text).Some? then Time(f.parseTime(v.text).value) else v
  }

  function Reparsed(f: Format, field: Field, v: Value): Value { TimeParsed(f, field, UuidParsed(f, field, v)) }

  /** What a field reads off the payload: a missing value, or a NULL no default allows, falls back on the
      default. */
  function ReadField(f: Format, field: Field, payload: Values): Option<Value> {
    if field.name in payload && (payload[field.name] != Null || field.default.Some?)
    then Some(Reparsed(f, field, payload[field.name]))
    else field.default
  }

  function FromPayload(f: Format, fields: seq<Field>, payload: Values): (r: Rebuilt)
    ensures r.Event? ==> r.values.Keys == FieldNames(fields)
  {
    if fields == [] then Event(map[])
    else
      var init, field := fields[..|fields| - 1], fields[|fields| - 1];
      var rest, v := FromPayload(f, init, payload), ReadField(f, field, payload);
      if rest.TypeError? || v.None? then TypeError
      else
        assert FieldNames(fields) == FieldNames(init) + {field.name};
        Event(rest.values[field.name := v.value])
  }

  lemma {:induction false} FromPayloadFields(f: Format, fields: seq<Field>, payload: Values)
    requires DistinctNames(fields)
    ensures var r := FromPayload(f, fields, payload);
            && (r.TypeError? <==> exists field :: field in fields && ReadField(f, field, payload).None?)
            && (r.Event? ==> forall field :: field in fields ==>
                  field.name in r.values && ReadField(f, field, payload) == Some(r.values[field.name]))
  {
    if fields != [] {
      var init, last := fields[..|fields| - 1], fields[|fields| - 1];
      FromPayloadFields(f, init, payload);
      assert fields == init + [last];
      assert forall i :: 0 <= i < |init| ==> init[i].name != last.name;
      if FromPayload(f, init, payload).TypeError? {
        var field :| field in init && ReadField(f, field, payload).None?;
        assert field in fields;
      } else if ReadField(f, last, payload).None? {
        assert last in fields;
      }
    }
  }

  // ── The round trip ────────────────────────────────────────────────────────────────────────────

  function Delivered(
    f: Format, cls: EventClass, values: Values, id: nat, createdAt: int, requestId: Option<nat>): Rebuilt
  {
    FromPayload(f, cls.fields, TaskPayload(f, EventToRecord(f, cls, values, id, createdAt, requestId)))
  }

  /** The names under which the payload carries the record's own ids. */
  predicate Reserved(name: string) { name == "event_id" || name == "request_id" }

  predicate NoReservedNames(cls: EventClass) { forall name :: name in FieldNames(cls.fields) ==> !Reserved(name) }

  /** Whether a field arrives as it was emitted: what a caller can check before emitting. */
  predicate Intact(f: Format, cls: EventClass, field: Field, v: Value) {
    && (v == Null ==> field.default.Some?)
    && (field.name == "org_id" ==> cls.scoped || v == Null)
    && (field.name !in LIFTED && IsSecretName(field.name) ==> v == Null || v == Text(MASK))
    && match v
       case Null => true
       case Other(_) => true
       case Uuid(_) => field.uuid
       case Time(_) => field.time
       case Text(text) => (field.uuid ==> f.parseUuid(text) == None) && (field.time ==> f.parseTime(text) == None)
  }

  /** What the payload carries for a field of the event. */
  function Wire(f: Format, cls: EventClass, name: string, v: Value): Value {
    if name == "org_id" && !cls.scoped then Null
    else if name in LIFTED then UuidWritten(f, v)
    else PayloadValue(f, name, v)
  }

  lemma PayloadCarries(
    f: Format, cls: EventClass, values: Values, id: nat, createdAt: int, requestId: Option<nat>, name: string)
    requires name in values && !Reserved(name)
    ensures var payload := TaskPayload(f, EventToRecord(f, cls, values, id, createdAt, requestId));
            && name in payload
            && payload[name] ==
               if name == "created_at" then Text(f.timeText(createdAt)) else Wire(f, cls, name, values[name])
  {
  }

  /** Field by field: what is read back is what was emitted exactly when the field is intact. */
  lemma FieldSurvives(f: Format, cls: EventClass, field: Field, v: Value, payload: Values)
    requires Lawful(f) && (field.name in LIFTED ==> !v.Time?)
    requires field.name in payload && payload[field.name] == Wire(f, cls, field.name, v)
    ensures ReadField(f, field, payload) == Some(v) <==> Intact(f, cls, field, v)
  {
    var wire := Wire(f, cls, field.name, v);
    if field.name == "org_id" && !cls.scoped {
    } else if field.name !in LIFTED && IsSecretName(field.name) {
      assert f.parseUuid(MASK) == None && f.parseTime(MASK) == None;
    } else {
      match v
      case Null =>
      case Other(_) =>
      case Text(_) =>
      case Uuid(u) =>
        assert f.parseUuid(f.uuidText(u)) == Some(u);
      case Time(t) =>
        assert f.parseTime(f.timeText(t)) == Some(t);
        assert f.parseUuid(f.timeText(t)) == None;
    }
  }

  lemma CreatedAtArrives(f: Format, payload: Values, createdAt: int)
    requires Lawful(f) && "created_at" in payload && payload["created_at"] == Text(f.timeText(createdAt))
    ensures ReadField(f, Field("created_at", Some(Null), false, true), payload) == Some(Time(createdAt))
  {
    assert f.parseTime(f.timeText(createdAt)) == Some(createdAt);
  }

  lemma FieldNamed(fields: seq<Field>, a: Field, b: Field)
    requires DistinctNames(fields) && a in fields && b in fields && a.name == b.name
    ensures a == b
  {
    var i :| 0 <= i < |fields| && fields[i] == a;
    var j :| 0 <= j < |fields| && fields[j] == b;
    assert i == j;
  }

  /** The record's id that travels under a reserved name. */
  function RecordId(name: string, id: nat, requestId: Option<nat>): Option<nat> {
    if name == "event_id" then Some(id) else requestId
  }

  /** What a field with a reserved name reads: a uuid or its text, or its default's NULL, or nothing. */
  function OwnId(f: Format, field: Field, id: nat, requestId: Option<nat>): Option<Value> {
    match RecordId(field.name, id, requestId)
    case Some(u) => Some(if field.uuid then Uuid(u) else Text(f.uuidText(u)))
    case None => if field.default.Some? then Some(Null) else None
  }

  lemma ReservedReads(
    f: Format, cls: EventClass, values: Values, id: nat, createdAt: int, requestId: Option<nat>, field: Field)
    requires Lawful(f) && Reserved(field.name)
    ensures var payload := TaskPayload(f, EventToRecord(f, cls, values, id, createdAt, requestId));
            ReadField(f, field, payload) == OwnId(f, field, id, requestId)
  {
    var found := RecordId(field.name, id, requestId);
    if found.Some? {
      assert f.parseUuid(f.uuidText(found.value)) == Some(found.value);
      assert f.parseTime(f.uuidText(found.value)) == None;
    }
  }

  /** A field that takes a reserved name reads the record's own id, whatever the event held; a required
      `request_id` outside a request fails the whole event. */
  lemma ReservedNameIsOverwritten(
    f: Format, cls: EventClass, values: Values, id: nat, createdAt: int, requestId: Option<nat>, field: Field)
    requires Lawful(f) && IsEvent(cls, values) && field in cls.fields && Reserved(field.name)
    ensures var d := Delivered(f, cls, values, id, createdAt, requestId);
            && (d.Event? ==> Some(d.values[field.name]) == OwnId(f, field, id, requestId))
            && (OwnId(f, field, id, requestId).None? ==> d.TypeError?)
  {
    FromPayloadFields(f, cls.fields, TaskPayload(f, EventToRecord(f, cls, values, id, createdAt, requestId)));
    ReservedReads(f, cls, values, id, createdAt, requestId, field);
  }

  /** One field of one record: it arrives as it was emitted. */
  predicate FieldArrives(f: Format, cls: EventClass, field: Field, v: Value, id: nat, requestId: Option<nat>) {
    if Reserved(field.name) then OwnId(f, field, id, requestId) == Some(v) else Intact(f, cls, field, v)
  }

  /** The consumer receives the event emitted, with the creation time the journal fills in. */
  predicate RoundTrips(
    f: Format, cls: EventClass, values: Values, id: nat, createdAt: int, requestId: Option<nat>)
  {
    Delivered(f, cls, values, id, createdAt, requestId) == Event(values["created_at" := Time(createdAt)])
  }

  lemma FieldReads(
    f: Format, cls: EventClass, values: Values, id: nat, createdAt: int, requestId: Option<nat>, field: Field)
    requires Lawful(f) && IsEvent(cls, values) && field in cls.fields
    ensures var payload := TaskPayload(f, EventToRecord(f, cls, values, id, createdAt, requestId));
            var expected := values["created_at" := Time(createdAt)];
            ReadField(f, field, payload) == Some(expected[field.name]) <==>
            field.name == "created_at" || FieldArrives(f, cls, field, values[field.name], id, requestId)
  {
    var payload := TaskPayload(f, EventToRecord(f, cls, values, id, createdAt, requestId));
    assert field.name in values;
    if Reserved(field.name) {
      ReservedReads(f, cls, values, id, createdAt, requestId, field);
    } else {
      PayloadCarries(f, cls, values, id, createdAt, requestId, field.name);
      if field.name == "created_at" {
        FieldNamed(cls.fields, field, Field("created_at", Some(Null), false, true));
        CreatedAtArrives(f, payload, createdAt);
      } else {
        FieldSurvives(f, cls, field, values[field.name], payload);
      }
    }
  }

  /** For one record of any event of any class: it round-trips exactly when every field arrives. */
  lemma RecordRoundTrips(
    f: Format, cls: EventClass, values: Values, id: nat, createdAt: int, requestId: Option<nat>)
    requires Lawful(f) && IsEvent(cls, values)
    ensures RoundTrips(f, cls, values, id, createdAt, requestId) <==>
      forall field :: field in cls.fields && field.name != "created_at" ==>
        FieldArrives(f, cls, field, values[field.name], id, requestId)
  {
    var payload := TaskPayload(f, EventToRecord(f, cls, values, id, createdAt, requestId));
    var expected := values["created_at" := Time(createdAt)];
    assert Field("created_at", Some(Null), false, true).name in values;
    assert expected.Keys == FieldNames(cls.fields);
    forall field | field in cls.fields
      ensures field.name in expected
      ensures ReadField(f, field, payload) == Some(expected[field.name]) <==>
        field.name == "created_at" || FieldArrives(f, cls, field, values[field.name], id, requestId)
    {
      assert field.name in values;
      FieldReads(f, cls, values, id, createdAt, requestId, field);
    }
    AgreesFieldwise(f, cls.fields, payload, expected);
  }

  /** A field with a reserved name cannot arrive under two records that differ in their ids. */
  lemma ReservedFieldVaries(f: Format, cls: EventClass, field: Field, v: Value)
    requires Lawful(f) && Reserved(field.name)
    ensures !FieldArrives(f, cls, field, v, 0, Some(0)) || !FieldArrives(f, cls, field, v, 1, Some(1))
  {
    assert f.parseUuid(f.uuidText(0)) == Some(0) && f.parseUuid(f.uuidText(1)) == Some(1);
  }

  /** For every event of every class: it arrives as it was emitted from every record of it exactly when no
      field takes a reserved name and every field but the creation time is intact. */
  lemma RoundTripIffIntact(f: Format, cls: EventClass, values: Values)
    requires Lawful(f) && IsEvent(cls, values)
    ensures (forall id: nat, createdAt, requestId :: RoundTrips(f, cls, values, id, createdAt, requestId)) <==>
      NoReservedNames(cls) &&
      forall field :: field in cls.fields && field.name != "created_at" ==> Intact(f, cls, field, values[field.name])
  {
    forall id: nat, createdAt, requestId
      ensures RoundTrips(f, cls, values, id, createdAt, requestId) <==>
        forall field :: field in cls.fields && field.name != "created_at" ==>
          FieldArrives(f, cls, field, values[field.name], id, requestId)
    {
      RecordRoundTrips(f, cls, values, id, createdAt, requestId);
    }
    if !NoReservedNames(cls) {
      var field :| field in cls.fields && Reserved(field.name);
      ReservedFieldVaries(f, cls, field, values[field.name]);
      assert !RoundTrips(f, cls, values, 0, 0, Some(0)) || !RoundTrips(f, cls, values, 1, 0, Some(1));
    } else {
      assert forall field :: field in cls.fields ==> field.name in FieldNames(cls.fields);
      assert RoundTrips(f, cls, values, 0, 0, None) <==>
        forall field :: field in cls.fields && field.name != "created_at" ==>
          FieldArrives(f, cls, field, values[field.name], 0, None);
    }
  }

  lemma AgreesFieldwise(f: Format, fields: seq<Field>, payload: Values, expected: Values)
    requires DistinctNames(fields) && expected.Keys == FieldNames(fields)
    ensures FromPayload(f, fields, payload) == Event(expected)
       <==> forall field :: field in fields ==> ReadField(f, field, payload) == Some(expected[field.name])
  {
    FromPayloadFields(f, fields, payload);
    var result := FromPayload(f, fields, payload);
    if result.Event? && forall field :: field in fields ==> ReadField(f, field, payload) == Some(expected[field.name]) {
      SameValues(fields, result.values, expected);
    }
  }

  lemma SameValues(fields: seq<Field>, a: Values, b: Values)
    requires a.Keys == FieldNames(fields) == b.Keys
    requires forall field :: field in fields ==> field.name in a && field.name in b && a[field.name] == b[field.name]
    ensures a == b
  {
    forall name | name in a ensures a[name] == b[name] {
      var field :| field in fields && field.name == name;
    }
  }

  /** Whether a field reaches the queue as NULL: emitted so, an `org_id` without the organization mixin, or
      a `request_id` of a fact no request made. */
  predicate TravelsNull(cls: EventClass, name: string, v: Value, requestId: Option<nat>) {
    if name == "event_id" || name == "created_at" then false
    else if name == "request_id" then requestId.None?
    else v == Null || (name == "org_id" && !cls.scoped)
  }

  lemma ReadsNothingIff(
    f: Format, cls: EventClass, values: Values, id: nat, createdAt: int, requestId: Option<nat>, field: Field)
    requires Lawful(f) && IsEvent(cls, values) && field in cls.fields && field.name in values
    ensures var payload := TaskPayload(f, EventToRecord(f, cls, values, id, createdAt, requestId));
            ReadField(f, field, payload).None? <==>
            field.default.None? && TravelsNull(cls, field.name, values[field.name], requestId)
  {
    if Reserved(field.name) {
      ReservedReads(f, cls, values, id, createdAt, requestId, field);
    } else {
      PayloadCarries(f, cls, values, id, createdAt, requestId, field.name);
      if field.name == "created_at" {
        FieldNamed(cls.fields, field, Field("created_at", Some(Null), false, true));
      }
    }
  }

  /** For every event of every class, rebuilding fails exactly when a required field travels as NULL. */
  lemma FailsIffRequiredNull(
    f: Format, cls: EventClass, values: Values, id: nat, createdAt: int, requestId: Option<nat>)
    requires Lawful(f) && IsEvent(cls, values)
    ensures Delivered(f, cls, values, id, createdAt, requestId) == TypeError <==>
      exists field :: field in cls.fields && field.default.None?
                      && TravelsNull(cls, field.name, values[field.name], requestId)
  {
    var payload := TaskPayload(f, EventToRecord(f, cls, values, id, createdAt, requestId));
    FromPayloadFields(f, cls.fields, payload);
    forall field | field in cls.fields
      ensures field.name in values
      ensures ReadField(f, field, payload).None? <==>
        field.default.None? && TravelsNull(cls, field.name, values[field.name], requestId)
    {
      assert field.name in values;
      ReadsNothingIff(f, cls, values, id, createdAt, requestId, field);
    }
  }

  // ── What the journal hides, and what it carries ───────────────────────────────────────────────

  /** The record's columns are the event's, the organization's only where the class has one; the payload has
      every other field, and none of those. */
  lemma RecordSplits(f: Format, cls: EventClass, values: Values, id: nat, createdAt: int, requestId: Option<nat>)
    requires IsEvent(cls, values)
    ensures var record := EventToRecord(f, cls, values, id, createdAt, requestId);
            && record.columns.Keys == {"user_id", "org_id", "entity_id", "entity_name"}
            && (forall name :: name in record.columns && name != "org_id" ==> record.columns[name] == values[name])
            && record.columns["org_id"] == (if cls.scoped then values["org_id"] else Null)
            && record.payload.Keys == values.Keys - {"user_id", "org_id", "entity_id", "entity_name", "created_at"}
  {
    var fields := cls.fields;
    assert forall field :: field in fields ==> field.name in FieldNames(fields);
    if cls.scoped {
      assert Field("org_id", None, true, false).name in FieldNames(fields);
    }
  }

  /** A field outside the columns is masked exactly when a secret fragment can be read off its name and the
      name does not end in `_id`; every other value is carried as it was, uuids and datetimes as text. */
  lemma RecordHides(
    f: Format, cls: EventClass, values: Values, id: nat, createdAt: int, requestId: Option<nat>, name: string)
    requires name in values && name !in LIFTED && name != "created_at"
    ensures var payload := EventToRecord(f, cls, values, id, createdAt, requestId).payload;
            && name in payload
            && payload[name] ==
               if ReadsFragment(name) && !EndsInId(name) then (if values[name] == Null then Null else Text("***"))
               else match values[name]
                    case Uuid(u) => Text(f.uuidText(u))
                    case Time(t) => Text(f.timeText(t))
                    case v => v
  {
    SecretIffReadable(name);
  }

  /** However a fragment is spelled and whatever surrounds it, the value never reaches the journal. */
  lemma SpelledSecretIsMasked(
    f: Format, cls: EventClass, values: Values, id: nat, createdAt: int, requestId: Option<nat>,
    before: string, spelled: string, after: string, word: string)
    requires word in SECRET_FRAGMENTS && Reads(spelled, word)
    requires var name := before + spelled + after;
             name in values && name !in LIFTED && name != "created_at" && !EndsInId(name) && values[name] != Null
    ensures var payload := EventToRecord(f, cls, values, id, createdAt, requestId).payload;
            var name := before + spelled + after;
            name in payload && payload[name] == Text("***")
  {
    SpelledIsSecret(before, spelled, after, word);
    RecordHides(f, cls, values, id, createdAt, requestId, before + spelled + after);
  }

  /** The classes that can be defined: one with a secret name is refused at its creation, and the payload's
      own names are left alone. */
  ghost predicate Definable(cls: EventClass) {
    NoReservedNames(cls) &&
    forall field :: field in cls.fields && field.name !in LIFTED && field.name != "created_at" ==>
      !ReadsFragment(field.name) || EndsInId(field.name)
  }

  /** A value its field's annotation allows and the journal's text forms keep apart from text. */
  predicate Typed(f: Format, cls: EventClass, field: Field, v: Value) {
    match v
    case Null => field.default.Some?
    case Other(_) => field.name == "org_id" ==> cls.scoped
    case Uuid(_) => field.uuid && (field.name == "org_id" ==> cls.scoped)
    case Time(_) => field.time && (field.name == "org_id" ==> cls.scoped)
    case Text(text) =>
      && (field.name == "org_id" ==> cls.scoped)
      && (field.uuid ==> f.parseUuid(text) == None) && (field.time ==> f.parseTime(text) == None)
  }

  /** For every event of every class that can be defined: it arrives as it was emitted exactly when its
      values are typed. */
  lemma DefinableRoundTrips(f: Format, cls: EventClass, values: Values)
    requires Lawful(f) && IsEvent(cls, values) && Definable(cls)
    ensures (forall id: nat, createdAt, requestId :: RoundTrips(f, cls, values, id, createdAt, requestId)) <==>
      forall field :: field in cls.fields && field.name != "created_at" ==> Typed(f, cls, field, values[field.name])
  {
    RoundTripIffIntact(f, cls, values);
    forall field | field in cls.fields && field.name != "created_at"
      ensures field.name in values
      ensures Intact(f, cls, field, values[field.name]) <==> Typed(f, cls, field, values[field.name])
    {
      assert field.name in values;
      SecretIffReadable(field.name);
    }
  }

  /** A new account: its address is a field of its own. */
  const USER_CREATED: EventClass :=
    EventClass(
      [Field("user_id", Some(Null), true, false), Field("created_at", Some(Null), false, true),
       Field("entity_id", Some(Null), true, false), Field("entity_name", Some(Null), false, false),
       Field("email", None, false, false)],
      false)

  function UuidOr(u: Option<nat>): Value { if u.Some? then Uuid(u.value) else Null }

  function TextOr(t: Option<string>): Value { if t.Some? then Text(t.value) else Null }

  function AccountCreated(user: Option<nat>, entity: Option<nat>, name: Option<string>, email: string): Values {
    map field | field in FieldNames(USER_CREATED.fields) ::
      if field == "email" then Text(email)
      else if field == "user_id" then UuidOr(user)
      else if field == "entity_id" then UuidOr(entity)
      else if field == "entity_name" then TextOr(name)
      else Null
  }

  lemma UserCreatedFields(i: nat)
    requires i < |USER_CREATED.fields|
    ensures var name := USER_CREATED.fields[i].name;
            && |name| == (if i == 0 then 7 else if i == 1 then 10 else if i == 2 then 9 else if i == 3 then 11 else 5)
            && !Reserved(name) && name != "org_id" && (i == 4 ==> !IsSecretName(name))
            && (i < 4 ==> name in LIFTED || name == "created_at")
  {
    var name := USER_CREATED.fields[i].name;
    assert |"event_id"| == 8 && |"org_id"| == 6 && |"request_id"| == 10;
    if i == 1 {
      assert name[0] == 'c' && "request_id"[0] == 'r';
    }
    if i == 4 {
      PlainWithoutLetters("email");
    }
  }

  lemma AccountCreatedIsEvent(user: Option<nat>, entity: Option<nat>, name: Option<string>, email: string)
    ensures IsEvent(USER_CREATED, AccountCreated(user, entity, name, email)) && NoReservedNames(USER_CREATED)
  {
    var fields := USER_CREATED.fields;
    forall i, j | 0 <= i < j < |fields| ensures fields[i].name != fields[j].name {
      UserCreatedFields(i);
      UserCreatedFields(j);
    }
    assert fields[0] in fields && fields[1] in fields && fields[2] in fields && fields[3] in fields;
    forall field | field in FieldNames(fields) ensures !Reserved(field) {
      var i :| 0 <= i < |fields| && fields[i].name == field;
      UserCreatedFields(i);
    }
  }

  /** Whatever the account and its address, its creation arrives as it was emitted. */
  lemma AccountCreatedArrives(
    f: Format, user: Option<nat>, entity: Option<nat>, name: Option<string>, email: string,
    id: nat, createdAt: int, requestId: Option<nat>)
    requires Lawful(f)
    ensures var values := AccountCreated(user, entity, name, email);
            Delivered(f, USER_CREATED, values, id, createdAt, requestId)
              == Event(values["created_at" := Time(createdAt)])
  {
    var cls, values := USER_CREATED, AccountCreated(user, entity, name, email);
    AccountCreatedIsEvent(user, entity, name, email);
    RoundTripIffIntact(f, cls, values);
    forall i: nat | i < |cls.fields|
      ensures cls.fields[i].name in values
      ensures cls.fields[i].name != "created_at" ==> Intact(f, cls, cls.fields[i], values[cls.fields[i].name])
    {
      UserCreatedFields(i);
      assert cls.fields[i] in cls.fields;
    }
    assert RoundTrips(f, cls, values, id, createdAt, requestId);
  }

  // ── A class whose facts fail ──────────────────────────────────────────────────────────────────

  /** The regression of an issue: its subject is required, and so is a release that may be NULL. */
  const ISSUE_REGRESSED: EventClass :=
    EventClass(
      [Field("user_id", Some(Null), true, false), Field("created_at", Some(Null), false, true),
       Field("entity_id", None, true, false), Field("entity_name", None, false, false),
       Field("resolved_in_release", None, false, false), Field("seen_version", None, false, false)],
      false)

  /** Its field names all differ in length. */
  function RegressedLength(i: nat): nat
    requires i < 6
  {
    if i == 0 then 7 else if i == 1 then 10 else if i == 2 then 9 else if i == 3 then 11 else if i == 4 then 19 else 12
  }

  lemma RegressedLengths(i: nat)
    requires i < |ISSUE_REGRESSED.fields|
    ensures |ISSUE_REGRESSED.fields| == 6 && |ISSUE_REGRESSED.fields[i].name| == RegressedLength(i)
  {
  }

  const MAY_BE_NULL: set<string> := {"user_id", "created_at", "resolved_in_release"}

  lemma RegressedDistinct()
    ensures DistinctNames(ISSUE_REGRESSED.fields)
  {
    var fields := ISSUE_REGRESSED.fields;
    forall i, j | 0 <= i < j < |fields| ensures fields[i].name != fields[j].name {
      RegressedLengths(i);
      RegressedLengths(j);
      assert RegressedLength(i) != RegressedLength(j);
    }
  }

  /** There is such an event: a regression of an issue resolved in no release. */
  lemma UnreleasedRegression() returns (values: Values)
    ensures IsEvent(ISSUE_REGRESSED, values) && "resolved_in_release" in values
    ensures forall name :: name in values ==> (values[name] == Null <==> name in MAY_BE_NULL)
  {
    RegressedDistinct();
    var fields := ISSUE_REGRESSED.fields;
    assert fields[0] in fields && fields[1] in fields && fields[2] in fields && fields[3] in fields;
    assert fields[4] in fields;
    values := map name | name in FieldNames(fields) ::
      if name in MAY_BE_NULL then Null else if name == "entity_id" then Uuid(0) else Text("1");
  }

  lemma RegressedUnreserved(i: nat)
    requires i < |ISSUE_REGRESSED.fields|
    ensures !Reserved(ISSUE_REGRESSED.fields[i].name) && ISSUE_REGRESSED.fields[i].name != "org_id"
  {
    RegressedLengths(i);
    var name := ISSUE_REGRESSED.fields[i].name;
    assert |"event_id"| == 8 && |"org_id"| == 6 && |"request_id"| == 10;
    if i == 1 {
      assert name[0] == 'c' && "request_id"[0] == 'r';
    }
  }

  lemma OnlyTheReleaseFails(values: Values, i: nat, requestId: Option<nat>)
    requires i < |ISSUE_REGRESSED.fields| && IsEvent(ISSUE_REGRESSED, values)
    requires forall name :: name in values && name !in MAY_BE_NULL ==> values[name] != Null
    ensures var field := ISSUE_REGRESSED.fields[i];
            && field.name in values
            && (field.default.None? && TravelsNull(ISSUE_REGRESSED, field.name, values[field.name], requestId) <==>
                i == 4 && values[field.name] == Null)
  {
    var field := ISSUE_REGRESSED.fields[i];
    assert field in ISSUE_REGRESSED.fields && field.name in values;
    RegressedUnreserved(i);
    RegressedLengths(i);
    assert field.name in MAY_BE_NULL ==> |field.name| in {7, 10, 19};
  }

  /** A regression of an issue resolved in no release never reaches its consumers: with its other required
      fields set, rebuilding it fails exactly then. */
  lemma UnreleasedRegressionFails(
    f: Format, values: Values, id: nat, createdAt: int, requestId: Option<nat>)
    requires Lawful(f) && IsEvent(ISSUE_REGRESSED, values)
    requires forall name :: name in values && name !in MAY_BE_NULL ==> values[name] != Null
    ensures Delivered(f, ISSUE_REGRESSED, values, id, createdAt, requestId) == TypeError <==>
      "resolved_in_release" in values && values["resolved_in_release"] == Null
  {
    var cls := ISSUE_REGRESSED;
    FailsIffRequiredNull(f, cls, values, id, createdAt, requestId);
    var release := cls.fields[4];
    assert release in cls.fields && release.name == "resolved_in_release";
    forall i: nat | i < |cls.fields|
      ensures cls.fields[i].name in values
      ensures cls.fields[i].default.None? && TravelsNull(cls, cls.fields[i].name, values[cls.fields[i].name], requestId)
              <==> i == 4 && values[cls.fields[i].name] == Null
    {
      OnlyTheReleaseFails(values, i, requestId);
    }
  }

  // ── `from_payload` as it runs ─────────────────────────────────────────────────────────────────

  method ParseUuids(f: Format, fields: seq<Field>, kept: Values) returns (parsed: Values)
    requires DistinctNames(fields)
    ensures parsed.Keys == kept.Keys
    ensures forall i :: 0 <= i < |fields| && fields[i].name in kept ==>
      parsed[fields[i].name] == UuidParsed(f, fields[i], kept[fields[i].name])
  {
    parsed := kept;
    for n := 0 to |fields|
      invariant parsed.Keys == kept.Keys
      invariant forall i :: 0 <= i < |fields| && fields[i].name in kept ==>
        parsed[fields[i].name] == if i < n then UuidParsed(f, fields[i], kept[fields[i].name]) else kept[fields[i].name]
    {
      var name := fields[n].name;
      if fields[n].uuid && name in kept && parsed[name].Text? {
        var found := f.parseUuid(parsed[name].text);
        if found.Some? {
          parsed := parsed[name := Uuid(found.value)];
        }
      }
    }
  }

  method ParseTimes(f: Format, fields: seq<Field>, kept: Values) returns (parsed: Values)
    requires DistinctNames(fields)
    ensures parsed.Keys == kept.Keys
    ensures forall i :: 0 <= i < |fields| && fields[i].name in kept ==>
      parsed[fields[i].name] == TimeParsed(f, fields[i], kept[fields[i].name])
  {
    parsed := kept;
    for n := 0 to |fields|
      invariant parsed.Keys == kept.Keys
      invariant forall i :: 0 <= i < |fields| && fields[i].name in kept ==>
        parsed[fields[i].name] == if i < n then TimeParsed(f, fields[i], kept[fields[i].name]) else kept[fields[i].name]
    {
      var name := fields[n].name;
      if fields[n].time && name in kept && parsed[name].Text? {
        var found := f.parseTime(parsed[name].text);
        if found.Some? {
          parsed := parsed[name := Time(found.value)];
        }
      }
    }
  }

  /** Keep the known keys, reparse in place, uuids before datetimes, then construct. */
  method Rebuild(f: Format, fields: seq<Field>, payload: Values) returns (r: Rebuilt)
    requires DistinctNames(fields)
    ensures r == FromPayload(f, fields, payload)
  {
    var kept := Kept(fields, payload);
    var uuids := ParseUuids(f, fields, kept);
    var times := ParseTimes(f, fields, uuids);
    r := Construct(fields, times);
    ConstructReads(f, fields, payload, times, fields);
  }

  predicate Keeps(fields: seq<Field>, name: string, v: Value) {
    exists field :: field in fields && field.name == name && (v != Null || field.default.Some?)
  }

  /** The payload's entries that are fields and, when NULL, optional. */
  function Kept(fields: seq<Field>, payload: Values): Values {
    map name | name in payload && Keeps(fields, name, payload[name]) :: payload[name]
  }

  /** The dataclass constructor: every field needs a value or a default. */
  function Construct(fields: seq<Field>, kept: Values): Rebuilt {
    if fields == [] then Event(map[])
    else
      var init, field := fields[..|fields| - 1], fields[|fields| - 1];
      var rest := Construct(init, kept);
      if rest.TypeError? || (field.name !in kept && field.default.None?) then TypeError
      else Event(rest.values[field.name := if field.name in kept then kept[field.name] else field.default.value])
  }

  lemma {:induction false} ConstructReads(
    f: Format, fields: seq<Field>, payload: Values, kept: Values, part: seq<Field>)
    requires DistinctNames(fields) && part <= fields
    requires kept.Keys == Kept(fields, payload).Keys
    requires forall i :: 0 <= i < |fields| && fields[i].name in kept ==>
      kept[fields[i].name] == Reparsed(f, fields[i], payload[fields[i].name])
    ensures Construct(part, kept) == FromPayload(f, part, payload)
    decreases |part|
  {
    if part != [] {
      var k := |part| - 1;
      ConstructReads(f, fields, payload, kept, part[..k]);
      var field := part[k];
      assert fields[k] == field;
      if field.name in kept {
        var v := payload[field.name];
        var other :| other in fields && other.name == field.name && (v != Null || other.default.Some?);
        FieldNamed(fields, field, other);
      } else if field.name in payload {
        assert payload[field.name] == Null && field.default.None?;
      }
    }
  }
}
