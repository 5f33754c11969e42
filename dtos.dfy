/**
 * The request DTOs and what the global validation pipe accepts: each
 * decorator constraint, `whitelist` with `forbidNonWhitelisted` (a property the
 * DTO does not declare rejects the request) and the `@Type(() => Number)`
 * conversion. A rejected request is reported with the set of offending
 * property names.
 */
module Dtos {
  import opened Wrappers
  import opened Text
  import opened Enums
  import opened Entities

  /** A JSON value of a request body; numbers are integers in this model. */
  datatype Json = JNull | JBool(b: bool) | JNum(n: int) | JStr(s: string)

  /** A request body: property name to value. */
  type Body = map<string, Json>

  /** A query string: parameter name to value. */
  type Query = map<string, string>

  /** An optional DTO property after validation: left out, sent as `null`, or given. */
  datatype Field<T> = Absent | Null | Given(value: T) {
    /** `value ?? null` */
    function OrNull(): (r: Option<T>)
      ensures r.Some? <==> Given?
    {
      if Given? then Some(value) else None
    }
  }

  datatype CreateTicketDto = CreateTicketDto(
    requesterId: int,
    requesterName: string,
    assigneeId: Field<int>,
    topic: TicketTopic,
    priority: TicketPriority,
    description: string)

  datatype UpdateTicketDto = UpdateTicketDto(assigneeId: Field<int>, status: Field<TicketStatus>)

  datatype FindAllQueryDto = FindAllQueryDto(
    status: Option<TicketStatus>,
    requesterId: Option<int>,
    requesterName: Option<string>,
    assigneeId: Option<int>)

  datatype CreateTopicDto = CreateTopicDto(name: string)

  datatype UpdateTopicDto = UpdateTopicDto(name: Field<string>, isActive: Field<bool>)

  const CreateTicketProperties: set<string> :=
    {"requester_id", "requester_name", "assignee_id", "topic", "priority", "description"}
  const UpdateTicketProperties: set<string> := {"assignee_id", "status"}
  const FindAllQueryProperties: set<string> := {"status", "requester_id", "requester_name", "assignee_id"}
  const CreateTopicProperties: set<string> := {"name"}
  const UpdateTopicProperties: set<string> := {"name", "isActive"}

  /** `@Type(() => Number)`: `Number(value)`; `None` is `NaN` (or `null`, which `@IsNumber` also refuses). */
  function ToNumber(v: Json): Option<int> {
    match v
    case JNull => None
    case JBool(b) => Some(if b then 1 else 0)
    case JNum(n) => Some(n)
    case JStr(s) => NumberOf(s)
  }

  /** `@IsNumber() @Min(1)` after the conversion. */
  predicate IsPositiveNumber(v: Json) {
    ToNumber(v).Some? && ToNumber(v).value >= 1
  }

  predicate IsEnumTopic(v: Json) {
    v.JStr? && ParseTopic(v.s).Some?
  }

  predicate IsEnumPriority(v: Json) {
    v.JStr? && ParsePriority(v.s).Some?
  }

  predicate IsEnumStatus(v: Json) {
    v.JStr? && ParseStatus(v.s).Some?
  }

  /** `@IsString() @MinLength(min) @MaxLength(max)`. */
  predicate IsStringOfLength(v: Json, min: nat, max: nat) {
    v.JStr? && min <= |v.s| <= max
  }

  predicate IsString(v: Json) {
    v.JStr?
  }

  /** `@IsString() @MinLength(1)`. */
  predicate IsNonEmptyString(v: Json) {
    v.JStr? && |v.s| >= 1
  }

  predicate IsBoolean(v: Json) {
    v.JBool?
  }

  /** `@IsString() @MinLength(1) @MaxLength(100)` on a topic name. */
  predicate IsTopicName(v: Json) {
    IsStringOfLength(v, 1, TopicNameWidth)
  }

  /** Required property `p` present and satisfying `ok`. */
  predicate Required(body: Body, p: string, ok: Json -> bool) {
    p in body && ok(body[p])
  }

  /** `@IsOptional()`: a missing or `null` property skips the other validators. */
  predicate Optional(body: Body, p: string, ok: Json -> bool) {
    p !in body || body[p] == JNull || ok(body[p])
  }

  function Unless(ok: bool, p: string): set<string> {
    if ok then {} else {p}
  }

  /** The offending properties of a create-ticket body. */
  function CreateTicketErrors(body: Body): set<string> {
    (body.Keys - CreateTicketProperties)
    + Unless(Required(body, "requester_id", IsPositiveNumber), "requester_id")
    + Unless(Required(body, "requester_name", IsNonEmptyString), "requester_name")
    + Unless(Optional(body, "assignee_id", IsPositiveNumber), "assignee_id")
    + Unless(Required(body, "topic", IsEnumTopic), "topic")
    + Unless(Required(body, "priority", IsEnumPriority), "priority")
    + Unless(Required(body, "description", IsString), "description")
  }

  function OptionalNumber(body: Body, p: string): Field<int>
    requires Optional(body, p, IsPositiveNumber)
  {
    if p !in body then Absent else if body[p] == JNull then Null else Given(ToNumber(body[p]).value)
  }

  /** The validation pipe in front of `POST /tickets`. */
  function ValidateCreateTicket(body: Body): (r: Result<CreateTicketDto, set<string>>)
    ensures r.Ok? <==>
      && body.Keys <= CreateTicketProperties
      && "requester_id" in body && IsPositiveNumber(body["requester_id"])
      && "requester_name" in body && body["requester_name"].JStr? && |body["requester_name"].s| >= 1
      && ("assignee_id" in body && body["assignee_id"] != JNull ==> IsPositiveNumber(body["assignee_id"]))
      && "topic" in body && IsEnumTopic(body["topic"])
      && "priority" in body && IsEnumPriority(body["priority"])
      && "description" in body && body["description"].JStr?
    ensures r.Ok? ==>
      && r.value.requesterId >= 1 && ToNumber(body["requester_id"]) == Some(r.value.requesterId)
      && |r.value.requesterName| >= 1 && body["requester_name"] == JStr(r.value.requesterName)
      && (r.value.assigneeId.Absent? <==> "assignee_id" !in body)
      && (r.value.assigneeId.Null? <==> "assignee_id" in body && body["assignee_id"] == JNull)
      && (r.value.assigneeId.Given? ==>
            r.value.assigneeId.value >= 1 && ToNumber(body["assignee_id"]) == Some(r.value.assigneeId.value))
      && body["topic"] == JStr(TopicWire(r.value.topic))
      && body["priority"] == JStr(PriorityWire(r.value.priority))
      && body["description"] == JStr(r.value.description)
    ensures r.Err? ==> r.error != {} && r.error <= body.Keys + CreateTicketProperties
  {
    var errors := CreateTicketErrors(body);
    if errors != {} then
      assert errors <= body.Keys + CreateTicketProperties;
      Err(errors)
    else
      Ok(CreateTicketDto(
        ToNumber(body["requester_id"]).value,
        body["requester_name"].s,
        OptionalNumber(body, "assignee_id"),
        ParseTopic(body["topic"].s).value,
        ParsePriority(body["priority"].s).value,
        body["description"].s))
  }

  /**
   * The create-ticket body has no `status` and no `topic_id` property: a body
   * that carries either is rejected, so a caller can neither choose the initial
   * status nor pick a topic by id.
   */
  lemma CreateTicketRejectsUndeclared(body: Body, p: string)
    requires p in body && p in {"status", "topic_id"}
    ensures ValidateCreateTicket(body).Err?
    ensures p in ValidateCreateTicket(body).error
  {
  }

  function UpdateTicketErrors(body: Body): set<string> {
    (body.Keys - UpdateTicketProperties)
    + Unless(Optional(body, "assignee_id", IsPositiveNumber), "assignee_id")
    + Unless(Optional(body, "status", IsEnumStatus), "status")
  }

  /** The validation pipe in front of `PATCH /tickets/:id`. */
  function ValidateUpdateTicket(body: Body): (r: Result<UpdateTicketDto, set<string>>)
    ensures r.Ok? <==>
      && body.Keys <= UpdateTicketProperties
      && ("assignee_id" in body && body["assignee_id"] != JNull ==> IsPositiveNumber(body["assignee_id"]))
      && ("status" in body && body["status"] != JNull ==> IsEnumStatus(body["status"]))
    ensures r.Ok? ==>
      && (r.value.assigneeId.Absent? <==> "assignee_id" !in body)
      && (r.value.assigneeId.Null? <==> "assignee_id" in body && body["assignee_id"] == JNull)
      && (r.value.assigneeId.Given? ==>
            r.value.assigneeId.value >= 1 && ToNumber(body["assignee_id"]) == Some(r.value.assigneeId.value))
      && (r.value.status.Absent? <==> "status" !in body)
      && (r.value.status.Null? <==> "status" in body && body["status"] == JNull)
      && (r.value.status.Given? ==> body["status"] == JStr(StatusWire(r.value.status.value)))
    ensures r.Err? ==> r.error != {}
  {
    var errors := UpdateTicketErrors(body);
    if errors != {} then Err(errors)
    else
      var status :=
        if "status" !in body then Absent
        else if body["status"] == JNull then Null
        else Given(ParseStatus(body["status"].s).value);
      Ok(UpdateTicketDto(OptionalNumber(body, "assignee_id"), status))
  }

  /** An empty update body is valid and carries neither field. */
  lemma EmptyUpdateTicketIsValid()
    ensures ValidateUpdateTicket(map[]) == Ok(UpdateTicketDto(Absent, Absent))
  {
  }

  /** Only the assignee and the status can be sent in an update: `priority` and every other property is refused. */
  lemma UpdateTicketRejectsUndeclared(body: Body, p: string)
    requires p in body && p !in UpdateTicketProperties
    ensures ValidateUpdateTicket(body).Err?
    ensures p in ValidateUpdateTicket(body).error
  {
  }

  /** `@IsOptional()` on a query parameter: only a missing one is skipped (query values are strings). */
  predicate OptionalParam(q: Query, p: string, ok: string -> bool) {
    p !in q || ok(q[p])
  }

  predicate IsPositiveNumberString(s: string) {
    NumberOf(s).Some? && NumberOf(s).value >= 1
  }

  function FindAllQueryErrors(q: Query): set<string> {
    (q.Keys - FindAllQueryProperties)
    + Unless(OptionalParam(q, "status", s => ParseStatus(s).Some?), "status")
    + Unless(OptionalParam(q, "requester_id", IsPositiveNumberString), "requester_id")
    + Unless(OptionalParam(q, "assignee_id", IsPositiveNumberString), "assignee_id")
  }

  /** The validation pipe in front of `GET /tickets`. */
  function ValidateFindAllQuery(q: Query): (r: Result<FindAllQueryDto, set<string>>)
    ensures r.Ok? <==>
      && q.Keys <= FindAllQueryProperties
      && ("status" in q ==> ParseStatus(q["status"]).Some?)
      && ("requester_id" in q ==> IsPositiveNumberString(q["requester_id"]))
      && ("assignee_id" in q ==> IsPositiveNumberString(q["assignee_id"]))
    ensures r.Ok? ==>
      && (r.value.status.Some? <==> "status" in q)
      && (r.value.status.Some? ==> q["status"] == StatusWire(r.value.status.value))
      && (r.value.requesterId.Some? <==> "requester_id" in q)
      && (r.value.requesterId.Some? ==> r.value.requesterId.value >= 1 && NumberOf(q["requester_id"]) == r.value.requesterId)
      && (r.value.requesterName.Some? <==> "requester_name" in q)
      && (r.value.requesterName.Some? ==> r.value.requesterName.value == q["requester_name"])
      && (r.value.assigneeId.Some? <==> "assignee_id" in q)
      && (r.value.assigneeId.Some? ==> r.value.assigneeId.value >= 1 && NumberOf(q["assignee_id"]) == r.value.assigneeId)
    ensures r.Err? ==> r.error != {}
  {
    var errors := FindAllQueryErrors(q);
    if errors != {} then Err(errors)
    else
      Ok(FindAllQueryDto(
        if "status" in q then ParseStatus(q["status"]) else None,
        if "requester_id" in q then NumberOf(q["requester_id"]) else None,
        if "requester_name" in q then Some(q["requester_name"]) else None,
        if "assignee_id" in q then NumberOf(q["assignee_id"]) else None))
  }

  function CreateTopicErrors(body: Body): set<string> {
    (body.Keys - CreateTopicProperties)
    + Unless(Required(body, "name", IsTopicName), "name")
  }

  /** The validation pipe in front of `POST /topics`. */
  function ValidateCreateTopic(body: Body): (r: Result<CreateTopicDto, set<string>>)
    ensures r.Ok? <==>
      body.Keys == {"name"} && body["name"].JStr? && 1 <= |body["name"].s| <= TopicNameWidth
    ensures r.Ok? ==> body["name"] == JStr(r.value.name) && 1 <= |r.value.name| <= TopicNameWidth
    ensures r.Err? ==> r.error != {}
  {
    var errors := CreateTopicErrors(body);
    if errors != {} then Err(errors) else Ok(CreateTopicDto(body["name"].s))
  }

  function UpdateTopicErrors(body: Body): set<string> {
    (body.Keys - UpdateTopicProperties)
    + Unless(Optional(body, "name", IsTopicName), "name")
    + Unless(Optional(body, "isActive", IsBoolean), "isActive")
  }

  /** The validation pipe in front of `PATCH /topics/:id`. */
  function ValidateUpdateTopic(body: Body): (r: Result<UpdateTopicDto, set<string>>)
    ensures r.Ok? <==>
      && body.Keys <= UpdateTopicProperties
      && ("name" in body && body["name"] != JNull ==> IsStringOfLength(body["name"], 1, TopicNameWidth))
      && ("isActive" in body && body["isActive"] != JNull ==> body["isActive"].JBool?)
    ensures r.Ok? ==>
      && (r.value.name.Absent? <==> "name" !in body)
      && (r.value.name.Null? <==> "name" in body && body["name"] == JNull)
      && (r.value.name.Given? ==> 1 <= |r.value.name.value| <= TopicNameWidth && body["name"] == JStr(r.value.name.value))
      && (r.value.isActive.Absent? <==> "isActive" !in body)
      && (r.value.isActive.Null? <==> "isActive" in body && body["isActive"] == JNull)
      && (r.value.isActive.Given? ==> body["isActive"] == JBool(r.value.isActive.value))
    ensures r.Err? ==> r.error != {}
  {
    var errors := UpdateTopicErrors(body);
    if errors != {} then Err(errors)
    else
      var name :=
        if "name" !in body then Absent else if body["name"] == JNull then Null else Given(body["name"].s);
      var isActive :=
        if "isActive" !in body then Absent else if body["isActive"] == JNull then Null else Given(body["isActive"].b);
      Ok(UpdateTopicDto(name, isActive))
  }

  /** An empty topic update body is valid and carries neither field. */
  lemma EmptyUpdateTopicIsValid()
    ensures ValidateUpdateTopic(map[]) == Ok(UpdateTopicDto(Absent, Absent))
  {
  }
}
