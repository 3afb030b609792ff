// The member route handlers: the active-member listing with its cleaned filters,
// creation behind a duplicate check, and lookup and update answering 404 for a
// missing member.

module MembersController {
  import opened Wrappers
  import opened Text
  import opened Http
  import Api
  import opened MemberModel

  const NotFound := "Membro não encontrado"
  const AlreadyRegistered := "Membro já cadastrado"
  const UniqueKeyViolation := "Membro já cadastrado (violação de chave única)"
  const CreateFailed := "Erro interno ao criar membro"
  /** What reading `toLowerCase` of an `undefined` or a `null` name throws. */
  const LowerOfUndefined := "Cannot read properties of undefined (reading 'toLowerCase')"
  const LowerOfNull := "Cannot read properties of null (reading 'toLowerCase')"

  // ---------------------------------------------------------------- getActiveMembers

  /** A query value trimmed, or `''` when missing or blank. */
  function Clean(v: Option<string>): string {
    if Api.Given(v) then Trim(v.value) else ""
  }

  /** `getActiveMembers`: search with the cleaned filters. */
  function GetActiveMembers(t: Table, search: Option<string>, classFilter: Option<string>): Reply<Member> {
    Reply(200, Rows(SearchRows(t, Some(Clean(search)), Some(Clean(classFilter)))))
  }

  /** A cleaned value is given exactly when the raw one is, with the same trimmed text. */
  lemma CleanSpec(v: Option<string>)
    ensures Api.Given(Some(Clean(v))) <==> Api.Given(v)
    ensures Api.Given(v) ==> Clean(v) == Trim(v.value) && Trim(Clean(v)) == Trim(v.value)
    ensures !Api.Given(v) ==> Clean(v) == ""
  {
    if v.Some? {
      TrimIdempotent(v.value);
    }
  }

  /** Cleaning does not change what the search returns: the model trims and drops
      blank filters itself. */
  lemma GetActiveMembersSpec(t: Table, search: Option<string>, classFilter: Option<string>)
    ensures GetActiveMembers(t, search, classFilter) == Reply(200, Rows(SearchRows(t, search, classFilter)))
  {
    CleanSpec(search);
    CleanSpec(classFilter);
    assert Filters(Some(Clean(search)), Some(Clean(classFilter))) == Filters(search, classFilter);
  }

  // ---------------------------------------------------------------- createMember

  /** A text field of a request body as sent: absent, JSON `null`, or a text.
      The driver stores both absent and `null` as `NULL`. */
  datatype Sent = Absent | JsonNull | Named(name: string)

  function Stored(c: Sent): Option<string> {
    match c
    case Named(n) => Some(n)
    case _ => None
  }

  /** `m.class === memberClass`: a `NULL` column arrives as `null`, so it equals a
      JSON `null` but never an absent class. */
  predicate SameClass(column: Option<string>, sent: Sent) {
    match sent
    case Absent => false
    case JsonNull => column.None?
    case Named(n) => column == Some(n)
  }

  /** The duplicate test inside `find`: same name ignoring case, and the class
      strictly equal. */
  predicate Exact(m: Member, name: string, sent: Sent) {
    Lower(m.name) == Lower(name) && SameClass(m.className, sent)
  }

  /** `existingMembers.find(...)`. */
  function FindExact(ms: seq<Member>, name: string, sent: Sent): (r: Option<Member>)
    ensures r.Some? ==> r.value in ms && Exact(r.value, name, sent)
    ensures r.None? <==> forall m :: m in ms ==> !Exact(m, name, sent)
  {
    if ms == [] then None
    else if Exact(ms[0], name, sent) then Some(ms[0])
    else
      var r := FindExact(ms[1..], name, sent);
      assert forall m :: m in ms ==> m == ms[0] || m in ms[1..];
      r
  }

  /** The answer for an error the handler caught. */
  function CaughtReply(e: DbError): Reply<Member> {
    if e.code == Some("23505") then Fail(400, UniqueKeyViolation)
    else Reply(500, Problem(CreateFailed, Some(e.message), None))
  }

  datatype Handled = Handled(table: Table, reply: Reply<Member>)

  /**
   * `createMember`: search with the body's name and class, look for an exact match,
   * answer 400 with it when there is one, otherwise create and answer 201. The match
   * callback lower-cases the body's name, so a missing name with any search result
   * throws a `TypeError`, which the handler answers with 500. `sentName` and `sent`
   * are the body's `name` and `class` as sent, and `body` what the driver makes of
   * them.
   */
  function CreateMember(t: Table, body: MemberData, sentName: Sent, sent: Sent): Handled
    requires body.name == Stored(sentName) && body.className == Stored(sent)
  {
    var existing := SearchRows(t, body.name, body.className);
    if existing != [] && body.name.None? then
      Handled(t, CaughtReply(DbError(None, if sentName == JsonNull then LowerOfNull else LowerOfUndefined)))
    else
      var found := if body.name.None? then None else FindExact(existing, body.name.value, sent);
      match found
      case Some(m) => Handled(t, Reply(400, Problem(AlreadyRegistered, None, Some(m))))
      case None =>
        match Create(t, body)
        case Ok(s) => Handled(s.table, Reply(201, Data(s.member)))
        case Err(f) => Handled(f.table, CaughtReply(f.error))
  }

  /** A searched active member with the same name (ignoring case) and the same class
      makes the request a 400 carrying that member, and nothing is created. */
  lemma CreateMemberDuplicate(t: Table, body: MemberData, sentName: Sent, sent: Sent)
    requires body.name.Some? && body.name == Stored(sentName) && body.className == Stored(sent)
    ensures var h := CreateMember(t, body, sentName, sent);
      (h.reply.status == 400 <==>
        exists m :: m in SearchRows(t, body.name, body.className) && Exact(m, body.name.value, sent))
    ensures var h := CreateMember(t, body, sentName, sent);
      h.reply.status == 400 ==>
        && h.table == t
        && h.reply.body.Problem? && h.reply.body.error == AlreadyRegistered
        && h.reply.body.existing.Some?
        && h.reply.body.existing.value in SearchRows(t, body.name, body.className)
  {
  }

  /** Otherwise the member is created with the next id and answered with 201. */
  lemma CreateMemberCreates(t: Table, body: MemberData, sentName: Sent, sent: Sent)
    requires Valid(t) && body.name.Some? && body.name == Stored(sentName) && body.className == Stored(sent)
    requires forall m :: m in SearchRows(t, body.name, body.className) ==> !Exact(m, body.name.value, sent)
    ensures var h := CreateMember(t, body, sentName, sent);
      && h.reply.status == 201
      && h.reply.body == Data(Written(t.nextId, body.name.value, body))
      && h.table.rows == t.rows + [Written(t.nextId, body.name.value, body)]
      && Valid(h.table)
  {
    CreateSpec(t, body);
  }

  /** A JSON `null` class matches a searched member of the same name whose class is
      `NULL`, so the request is a 400; with the class absent the same request
      creates a second member. */
  lemma NullClassIsDuplicate(t: Table, body: MemberData, m: Member)
    requires Valid(t) && body.name.Some? && body.className.None?
    requires m in SearchRows(t, body.name, None) && Lower(m.name) == Lower(body.name.value) && m.className.None?
    ensures CreateMember(t, body, Named(body.name.value), JsonNull).reply.status == 400
    ensures CreateMember(t, body, Named(body.name.value), Absent).reply.status == 201
  {
    CreateMemberDuplicate(t, body, Named(body.name.value), JsonNull);
    CreateMemberCreates(t, body, Named(body.name.value), Absent);
  }

  /** Without a name nothing is created and the answer is 500: the match throws when
      the search finds anyone, and otherwise the insert violates `NOT NULL` after
      drawing an id. */
  lemma CreateMemberUnnamed(t: Table, body: MemberData, sentName: Sent, sent: Sent)
    requires body.name.None? && body.name == Stored(sentName) && body.className == Stored(sent)
    ensures var h := CreateMember(t, body, sentName, sent);
      && h.reply.status == 500
      && h.table == (if SearchRows(t, body.name, body.className) == [] then Consumed(t) else t)
    ensures var h := CreateMember(t, body, sentName, sent);
      SearchRows(t, body.name, body.className) != [] ==>
        h.reply.body == Problem(CreateFailed, Some(if sentName == JsonNull then LowerOfNull else LowerOfUndefined), None)
  {
  }

  /** SQLSTATE 23505 is answered with 400, every other caught error with 500 and its
      message as details. */
  lemma CaughtReplySpec(e: DbError)
    ensures CaughtReply(e).status == 400 <==> e.code == Some("23505")
    ensures CaughtReply(e).status != 400 ==>
      CaughtReply(e) == Reply(500, Problem(CreateFailed, Some(e.message), None))
  {
  }

  // ---------------------------------------------------------------- getMember / updateMember

  /** `getMember`. */
  function GetMember(t: Table, id: int): Reply<Member> {
    match GetById(t, id)
    case None => Fail(404, NotFound)
    case Some(m) => Success(m)
  }

  /** `updateMember`; a database error is not caught here. */
  function UpdateMember(t: Table, id: int, body: MemberData): Handled {
    match Update(t, id, body)
    case Ok(None) => Handled(t, Fail(404, NotFound))
    case Ok(Some(s)) => Handled(s.table, Success(s.member))
    case Err(e) => Handled(t, Reply(500, Unhandled(e.message)))
  }

  /** Both answer 404 exactly when no member has the id; an update of a missing member
      changes nothing. */
  lemma MissingMemberIs404(t: Table, id: int, body: MemberData)
    requires Valid(t)
    ensures GetMember(t, id).status == 404 <==> forall m :: m in t.rows ==> m.id != id
    ensures UpdateMember(t, id, body).reply.status == 404 <==> forall m :: m in t.rows ==> m.id != id
    ensures UpdateMember(t, id, body).reply.status == 404 ==> UpdateMember(t, id, body).table == t
  {
    GetByIdSpec(t, id);
    UpdateSpec(t, id, body);
  }
}
