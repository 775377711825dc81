/** The job envelope of the SQS backend: `encode`, `decode` and the timestamps they normalise. */
module SqsCodec {
  import opened Wrappers

  /** A JavaScript number; `JSON.parse` can overflow to an infinity. */
  datatype Number = Finite(value: real) | NonFinite

  datatype Json =
    | Null
    | Bool(b: bool)
    | Num(n: Number)
    | Str(s: string)
    | Arr(items: seq<Json>)
    | Obj(fields: map<string, Json>)

  /** What `JSON.parse(JSON.stringify(value))` gives: a number that is not finite becomes null. */
  function Stringified(j: Json): Json {
    match j
    case Num(NonFinite) => Null
    case Arr(items) => Arr(seq(|items|, i requires 0 <= i < |items| => Stringified(items[i])))
    case Obj(fields) => Obj(map name | name in fields :: Stringified(fields[name]))
    case _ => j
  }

  predicate AllFinite(j: Json) {
    match j
    case Num(n) => n.Finite?
    case Arr(items) => forall i :: 0 <= i < |items| ==> AllFinite(items[i])
    case Obj(fields) => forall name :: name in fields ==> AllFinite(fields[name])
    case _ => true
  }

  /** Text keeps a value exactly when every number in it is finite. */
  lemma {:induction false} StringifiedKeepsFinite(j: Json)
    ensures Stringified(j) == j <==> AllFinite(j)
    decreases j
  {
    match j
    case Arr(items) =>
      var text := Stringified(j);
      forall i | 0 <= i < |items| ensures text.items[i] == items[i] <==> AllFinite(items[i]) {
        StringifiedKeepsFinite(items[i]);
      }
    case Obj(fields) =>
      var text := Stringified(j);
      forall name | name in fields ensures text.fields[name] == fields[name] <==> AllFinite(fields[name]) {
        StringifiedKeepsFinite(fields[name]);
      }
    case _ =>
  }

  // ---------- Timestamps ----------

  /** The range of a valid `Date`, in milliseconds. */
  const MAX_TIME: int := 8640000000000000

  type Time = t: int | -MAX_TIME <= t <= MAX_TIME

  /** Date text: `toISOString`, and whether `Date.parse` understands a string. */
  datatype Dates = Dates(format: Time -> string, parses: string -> bool) {
    /** The one thing assumed of it: formatted dates parse. */
    ghost predicate Lawful() {
      forall t: Time :: parses(format(t))
    }
  }

  /** `ToIntegerOrInfinity`: towards zero. */
  function Truncate(r: real): int {
    if r >= 0.0 then r.Floor else -((-r).Floor)
  }

  datatype CodecError =
    | InvalidJson
    | NotAnObject
    | WrongBackend
    | InvalidId
    | InvalidName
    | InvalidPriority
    | WrongType
    | InvalidTimestamp(field: string)

  function Field(fields: map<string, Json>, name: string): Option<Json> {
    if name in fields then Some(fields[name]) else None
  }

  function NormalizeTimestamp(d: Dates, value: Option<Json>, field: string): Result<string, CodecError> {
    match value
    case Some(Str(s)) => if d.parses(s) then Ok(s) else Err(InvalidTimestamp(field))
    case Some(Num(Finite(r))) =>
      if -(MAX_TIME as real) <= r <= MAX_TIME as real then
        TruncateInRange(r);
        Ok(d.format(Truncate(r)))
      else Err(InvalidTimestamp(field))
    case _ => Err(InvalidTimestamp(field))
  }

  lemma {:induction false} TruncateInRange(r: real)
    requires -(MAX_TIME as real) <= r <= MAX_TIME as real
    ensures -MAX_TIME <= Truncate(r) <= MAX_TIME
  {
  }

  function NormalizeOptionalTimestamp(d: Dates, value: Option<Json>, field: string): Result<Json, CodecError> {
    if value.None? || value.value.Null? then Ok(Null) else
      var text :- NormalizeTimestamp(d, value, field);
      Ok(Str(text))
  }

  // ---------- Envelopes ----------

  /** `decode`, applied to the parsed message body, or to nothing when the body is not JSON. */
  function Decode(d: Dates, parsed: Option<Json>): Result<map<string, Json>, CodecError> {
    if parsed.None? then Err(InvalidJson)
    else if !parsed.value.Obj? then Err(NotAnObject)
    else
      var fields := parsed.value.fields;
      if Field(fields, "backend") != Some(Str("sqs")) then Err(WrongBackend)
      else if !NonEmptyString(Field(fields, "id")) then Err(InvalidId)
      else if !NonEmptyString(Field(fields, "name")) then Err(InvalidName)
      else if !FiniteNumber(Field(fields, "priority")) then Err(InvalidPriority)
      else if Field(fields, "type") != Some(Str("normal")) then Err(WrongType)
      else
        var queuedAt :- NormalizeTimestamp(d, Field(fields, "queuedAt"), "queuedAt");
        var scheduledAt :- NormalizeOptionalTimestamp(d, Field(fields, "scheduledAt"), "scheduledAt");
        Ok(fields["queuedAt" := Str(queuedAt)]["scheduledAt" := scheduledAt])
  }

  predicate NonEmptyString(value: Option<Json>) {
    value.Some? && value.value.Str? && value.value.s != ""
  }

  predicate FiniteNumber(value: Option<Json>) {
    value.Some? && value.value.Num? && value.value.n.Finite?
  }

  /** The parts of a job that travel. */
  datatype Outgoing = Outgoing(id: Option<string>, name: string, priority: Option<Number>, data: Option<Json>,
                               nextRunAt: Option<Time>)

  function IdOf(job: Outgoing, freshId: string): string {
    if job.id.Some? && job.id.value != "" then job.id.value else freshId
  }

  function PriorityOf(job: Outgoing): Number {
    if job.priority.Some? then job.priority.value else Finite(0.0)
  }

  /** `encode`; an undefined `data` leaves no field once serialised. */
  function Encode(d: Dates, job: Outgoing, queuedAt: Time, freshId: string): map<string, Json> {
    var envelope := map[
      "backend" := Str("sqs"),
      "id" := Str(IdOf(job, freshId)),
      "name" := Str(job.name),
      "priority" := Num(PriorityOf(job)),
      "type" := Str("normal"),
      "queuedAt" := Str(d.format(queuedAt)),
      "scheduledAt" := if job.nextRunAt.Some? then Str(d.format(job.nextRunAt.value)) else Null
    ];
    if job.data.Some? then envelope["data" := job.data.value] else envelope
  }

  /** The body that is sent, parsed again. */
  function Sent(d: Dates, job: Outgoing, queuedAt: Time, freshId: string): Json {
    Stringified(Obj(Encode(d, job, queuedAt, freshId)))
  }

  /** A sent job is accepted exactly when it has an id, a name and a finite priority. */
  lemma {:induction false} SentIsAccepted(d: Dates, job: Outgoing, queuedAt: Time, freshId: string)
    requires d.Lawful()
    ensures Decode(d, Some(Sent(d, job, queuedAt, freshId))).Ok? <==>
      IdOf(job, freshId) != "" && job.name != "" && PriorityOf(job).Finite?
  {
    SentFields(d, job, queuedAt, freshId);
  }

  lemma {:induction false} StringifiedField(fields: map<string, Json>, name: string)
    ensures Stringified(Obj(fields)).Obj?
    ensures Field(Stringified(Obj(fields)).fields, name)
         == if name in fields then Some(Stringified(fields[name])) else None
  {
  }

  lemma {:induction false} EncodedFields(d: Dates, job: Outgoing, queuedAt: Time, freshId: string)
    ensures var envelope := Encode(d, job, queuedAt, freshId);
            && Field(envelope, "backend") == Some(Str("sqs"))
            && Field(envelope, "id") == Some(Str(IdOf(job, freshId)))
            && Field(envelope, "name") == Some(Str(job.name))
            && Field(envelope, "priority") == Some(Num(PriorityOf(job)))
            && Field(envelope, "type") == Some(Str("normal"))
            && Field(envelope, "queuedAt") == Some(Str(d.format(queuedAt)))
            && Field(envelope, "scheduledAt")
               == Some(if job.nextRunAt.Some? then Str(d.format(job.nextRunAt.value)) else Null)
            && Field(envelope, "data") == job.data
  {
    assert |"id"| < |"name"| == |"type"| == |"data"| < |"backend"| < |"priority"| == |"queuedAt"| < |"scheduledAt"|;
    assert "name"[0] == 'n' && "type"[0] == 't' && "data"[0] == 'd' && "priority"[0] == 'p' && "queuedAt"[0] == 'q';
  }

  lemma {:induction false} SentFields(d: Dates, job: Outgoing, queuedAt: Time, freshId: string)
    ensures var sent := Sent(d, job, queuedAt, freshId);
            && sent.Obj?
            && Field(sent.fields, "backend") == Some(Str("sqs"))
            && Field(sent.fields, "id") == Some(Str(IdOf(job, freshId)))
            && Field(sent.fields, "name") == Some(Str(job.name))
            && Field(sent.fields, "priority")
               == Some(if PriorityOf(job).Finite? then Num(PriorityOf(job)) else Null)
            && Field(sent.fields, "type") == Some(Str("normal"))
            && Field(sent.fields, "queuedAt") == Some(Str(d.format(queuedAt)))
            && Field(sent.fields, "scheduledAt")
               == Some(if job.nextRunAt.Some? then Str(d.format(job.nextRunAt.value)) else Null)
            && Field(sent.fields, "data")
               == if job.data.Some? then Some(Stringified(job.data.value)) else None
  {
    EncodedFields(d, job, queuedAt, freshId);
    var envelope := Encode(d, job, queuedAt, freshId);
    forall name: string ensures Field(Stringified(Obj(envelope)).fields, name)
      == if name in envelope then Some(Stringified(envelope[name])) else None {
      StringifiedField(envelope, name);
    }
  }

  /** And then everything the job carries comes back; its data does so exactly when its numbers are finite. */
  lemma {:induction false} SentComesBack(d: Dates, job: Outgoing, queuedAt: Time, freshId: string)
    requires d.Lawful() && IdOf(job, freshId) != "" && job.name != "" && PriorityOf(job).Finite?
    ensures match Decode(d, Some(Sent(d, job, queuedAt, freshId)))
            case Err(_) => false
            case Ok(envelope) =>
              && Field(envelope, "id") == Some(Str(IdOf(job, freshId)))
              && Field(envelope, "name") == Some(Str(job.name))
              && Field(envelope, "priority") == Some(Num(PriorityOf(job)))
              && Field(envelope, "queuedAt") == Some(Str(d.format(queuedAt)))
              && Field(envelope, "scheduledAt")
                 == Some(if job.nextRunAt.Some? then Str(d.format(job.nextRunAt.value)) else Null)
              && (Field(envelope, "data") == job.data <==> job.data.None? || AllFinite(job.data.value))
  {
    SentFields(d, job, queuedAt, freshId);
    if job.data.Some? {
      StringifiedKeepsFinite(job.data.value);
    }
  }

  /** Serialising a decoded envelope and decoding it again returns it exactly when its numbers are finite. */
  lemma {:induction false} DecodeIsStable(d: Dates, parsed: Option<Json>)
    requires d.Lawful() && Decode(d, parsed).Ok?
    ensures var envelope := Decode(d, parsed).value;
            Decode(d, Some(Stringified(Obj(envelope)))) == Ok(envelope) <==> AllFinite(Obj(envelope))
  {
    var envelope := Decode(d, parsed).value;
    StringifiedKeepsFinite(Obj(envelope));
    DecodedDecodes(d, parsed);
    var text := Stringified(Obj(envelope)).fields;
    if Decode(d, Some(Obj(text))) == Ok(envelope) {
      assert forall name :: name in envelope && name != "queuedAt" && name != "scheduledAt" ==>
        envelope[name] == text[name];
      assert envelope == text;
    }
  }

  lemma {:induction false} DecodedDecodes(d: Dates, parsed: Option<Json>)
    requires d.Lawful() && Decode(d, parsed).Ok?
    ensures var envelope := Decode(d, parsed).value;
            && Decode(d, Some(Obj(envelope))) == Ok(envelope)
            && "queuedAt" in envelope && envelope["queuedAt"].Str?
            && "scheduledAt" in envelope && (envelope["scheduledAt"].Str? || envelope["scheduledAt"].Null?)
  {
    var envelope := Decode(d, parsed).value;
    assert envelope["queuedAt" := envelope["queuedAt"]]["scheduledAt" := envelope["scheduledAt"]] == envelope;
  }

  // ---------- What is accepted, and as what ----------

  /** `t` is the number without its fraction. */
  predicate IsWholePart(t: int, r: real) {
    if r >= 0.0 then t as real <= r < t as real + 1.0 else t as real - 1.0 < r <= t as real
  }

  predicate IsTimestamp(d: Dates, value: Option<Json>) {
    match value
    case Some(Str(s)) => d.parses(s)
    case Some(Num(Finite(r))) => -(MAX_TIME as real) <= r <= MAX_TIME as real
    case _ => false
  }

  /** The text of a timestamp: a string as it is, a number as the date of its whole part. */
  ghost predicate IsTextOf(d: Dates, value: Option<Json>, text: string) {
    match value
    case Some(Str(s)) => text == s
    case Some(Num(Finite(r))) => exists t: Time :: IsWholePart(t, r) && text == d.format(t)
    case _ => false
  }

  lemma {:induction false} TimestampExactly(d: Dates, value: Option<Json>, field: string)
    ensures NormalizeTimestamp(d, value, field).Ok? <==> IsTimestamp(d, value)
    ensures NormalizeTimestamp(d, value, field).Ok? ==> IsTextOf(d, value, NormalizeTimestamp(d, value, field).value)
    ensures NormalizeTimestamp(d, value, field).Err? ==>
      NormalizeTimestamp(d, value, field).error == InvalidTimestamp(field)
  {
    if value.Some? && value.value.Num? && value.value.n.Finite? && IsTimestamp(d, value) {
      var r := value.value.n.value;
      TruncateInRange(r);
      assert IsWholePart(Truncate(r), r);
    }
  }

  predicate IsAbsent(value: Option<Json>) {
    value == None || value == Some(Null)
  }

  /** An envelope of this backend: its marks, an id, a name, a finite priority, and timestamps. */
  predicate IsEnvelope(d: Dates, fields: map<string, Json>) {
    && Field(fields, "backend") == Some(Str("sqs")) && Field(fields, "type") == Some(Str("normal"))
    && (match Field(fields, "id") { case Some(Str(s)) => |s| > 0 case _ => false })
    && (match Field(fields, "name") { case Some(Str(s)) => |s| > 0 case _ => false })
    && (match Field(fields, "priority") { case Some(Num(Finite(_))) => true case _ => false })
    && IsTimestamp(d, Field(fields, "queuedAt"))
    && (IsAbsent(Field(fields, "scheduledAt")) || IsTimestamp(d, Field(fields, "scheduledAt")))
  }

  /** Exactly the envelopes of this backend are accepted; anything else is rejected. */
  lemma {:induction false} DecodeExactly(d: Dates, parsed: Option<Json>)
    ensures Decode(d, parsed).Ok? <==> parsed.Some? && parsed.value.Obj? && IsEnvelope(d, parsed.value.fields)
  {
    if parsed.Some? && parsed.value.Obj? {
      var fields := parsed.value.fields;
      TimestampExactly(d, Field(fields, "queuedAt"), "queuedAt");
      TimestampExactly(d, Field(fields, "scheduledAt"), "scheduledAt");
    }
  }

  /** An accepted envelope keeps its fields; its timestamps become texts, and an absent schedule becomes null. */
  lemma {:induction false} DecodedFields(d: Dates, fields: map<string, Json>, name: string)
    requires Decode(d, Some(Obj(fields))).Ok?
    ensures var envelope := Decode(d, Some(Obj(fields))).value;
      && (name != "queuedAt" && name != "scheduledAt" ==> Field(envelope, name) == Field(fields, name))
      && (match Field(envelope, "queuedAt")
          case Some(Str(text)) => IsTextOf(d, Field(fields, "queuedAt"), text)
          case _ => false)
      && (match Field(envelope, "scheduledAt")
          case Some(Str(text)) => IsTextOf(d, Field(fields, "scheduledAt"), text)
          case Some(Null) => IsAbsent(Field(fields, "scheduledAt"))
          case _ => false)
  {
    assert |"queuedAt"| != |"scheduledAt"|;
    TimestampExactly(d, Field(fields, "queuedAt"), "queuedAt");
    TimestampExactly(d, Field(fields, "scheduledAt"), "scheduledAt");
  }

  /** Serialising keeps the shape of a value; only a number that is not finite changes, to null. */
  lemma {:induction false} StringifiedKeepsShape(j: Json)
    ensures j == Num(NonFinite) ==> Stringified(j) == Null
    ensures j.Arr? ==>
      && Stringified(j).Arr? && |Stringified(j).items| == |j.items|
      && forall i :: 0 <= i < |j.items| ==> Stringified(j).items[i] == Stringified(j.items[i])
    ensures j.Obj? ==>
      && Stringified(j).Obj? && Stringified(j).fields.Keys == j.fields.Keys
      && forall name :: name in j.fields ==> Stringified(j).fields[name] == Stringified(j.fields[name])
    ensures !j.Arr? && !j.Obj? && j != Num(NonFinite) ==> Stringified(j) == j
  {
  }

  /** A decodable envelope whose data is a number that overflowed. */
  function OverflowedEnvelope(d: Dates, queuedAt: Time): map<string, Json> {
    Encode(d, Outgoing(Some("id"), "name", None, Some(Num(NonFinite)), None), queuedAt, "")
  }

  /** Serialised and decoded again, it is another envelope. */
  lemma {:induction false} OverflowChanges(d: Dates, queuedAt: Time)
    requires d.Lawful()
    ensures var envelope := OverflowedEnvelope(d, queuedAt);
            && Decode(d, Some(Obj(envelope))) == Ok(envelope)
            && Decode(d, Some(Stringified(Obj(envelope)))) != Ok(envelope)
  {
    var job := Outgoing(Some("id"), "name", None, Some(Num(NonFinite)), None);
    var envelope := OverflowedEnvelope(d, queuedAt);
    EncodedFields(d, job, queuedAt, "");
    EncodedDecodes(d, envelope, queuedAt);
    assert !AllFinite(Obj(envelope)) by {
      assert "data" in envelope && envelope["data"] == Num(NonFinite);
    }
    hide Encode, Decode, Stringified, AllFinite;
    DecodeIsStable(d, Some(Obj(envelope)));
  }

  lemma {:induction false} EncodedDecodes(d: Dates, envelope: map<string, Json>, queuedAt: Time)
    requires d.Lawful()
    requires Field(envelope, "backend") == Some(Str("sqs")) && Field(envelope, "type") == Some(Str("normal"))
    requires NonEmptyString(Field(envelope, "id")) && NonEmptyString(Field(envelope, "name"))
    requires FiniteNumber(Field(envelope, "priority"))
    requires Field(envelope, "queuedAt") == Some(Str(d.format(queuedAt)))
    requires Field(envelope, "scheduledAt") == Some(Null)
    ensures Decode(d, Some(Obj(envelope))) == Ok(envelope)
  {
    assert envelope["queuedAt" := envelope["queuedAt"]]["scheduledAt" := envelope["scheduledAt"]] == envelope;
  }
}
