// The `classes` table and the queries of the class model: listing ordered by name,
// lookup by id and by exact name, insertion and update under the `UNIQUE` name, and
// a delete refused while any member still names the class.

module ClassModel {
  import opened Wrappers
  import opened Sql
  import MemberModel

  /** A row of `classes`; `None` is SQL `NULL`. */
  datatype Class = Class(
    id: nat,
    name: string,
    teacher: Option<string>,
    description: Option<string>,
    room: Option<string>,
    schedule: Option<string>,
    active: Option<bool>)

  datatype Table = Table(rows: seq<Class>, nextId: nat)

  /** The fields a caller passes to `create` and `update`; `None` is `undefined`. */
  datatype ClassData = ClassData(
    name: Option<string>,
    teacher: Option<string>,
    description: Option<string>,
    room: Option<string>,
    schedule: Option<string>,
    active: Option<bool>)

  /** An error raised by the database or by the model, with its SQLSTATE code when
      there is one. */
  datatype Failure = Failure(code: Option<string>, message: string)

  const NotNullViolation := Failure(Some("23502"), "null value in column \"name\" violates not-null constraint")
  const UniqueViolation := Failure(Some("23505"), "duplicate key value violates unique constraint \"classes_name_key\"")
  const HasMembers := Failure(None, "Não é possível excluir uma turma que possui membros")

  /** `PRIMARY KEY (id)`, `UNIQUE (name)` and the `SERIAL` counter ahead of every id. */
  predicate Valid(t: Table) {
    && (forall i, j :: 0 <= i < j < |t.rows| ==> t.rows[i].id != t.rows[j].id)
    && (forall i, j :: 0 <= i < j < |t.rows| ==> t.rows[i].name != t.rows[j].name)
    && (forall i :: 0 <= i < |t.rows| ==> t.rows[i].id < t.nextId)
  }

  function NameKey(c: Class): string {
    c.name
  }

  function IsActive(): Class -> bool {
    (c: Class) => c.active == Some(true)
  }

  // ---------------------------------------------------------------- listing

  /** `getAll`: every class, ordered by name. */
  function GetAll(t: Table): seq<Class> {
    SortBy(t.rows, NameKey)
  }

  /** `getActive`: the classes whose `active` is true, ordered by name. */
  function GetActive(t: Table): seq<Class> {
    SortBy(Where(t.rows, IsActive()), NameKey)
  }

  lemma GetAllSpec(t: Table)
    ensures SortedBy(GetAll(t), NameKey)
    ensures multiset(GetAll(t)) == multiset(t.rows)
  {
    SortBySpec(t.rows, NameKey);
  }

  lemma GetActiveSpec(t: Table)
    ensures SortedBy(GetActive(t), NameKey)
    ensures forall c :: c in GetActive(t) <==> c in t.rows && c.active == Some(true)
    ensures forall c :: multiset(GetActive(t))[c] == if c.active == Some(true) then multiset(t.rows)[c] else 0
  {
    var w := Where(t.rows, IsActive());
    SortBySpec(w, NameKey);
    WhereSpec(t.rows, IsActive());
    WhereCount(t.rows, IsActive());
    forall c ensures c in GetActive(t) <==> c in w {
      assert c in GetActive(t) <==> c in multiset(GetActive(t));
      assert c in w <==> c in multiset(w);
    }
  }

  // ---------------------------------------------------------------- lookup

  /** The first row satisfying `p`. */
  function First(rows: seq<Class>, p: Class -> bool): (r: Option<nat>)
    ensures r.Some? ==> r.value < |rows| && p(rows[r.value])
  {
    if rows == [] then None
    else if p(rows[0]) then Some(0)
    else match First(rows[1..], p)
      case None => None
      case Some(i) => Some(i + 1)
  }

  lemma {:induction false} FirstNone(rows: seq<Class>, p: Class -> bool)
    ensures First(rows, p).None? <==> forall i :: 0 <= i < |rows| ==> !p(rows[i])
  {
    if rows != [] {
      FirstNone(rows[1..], p);
      if First(rows, p).None? {
        forall i | 0 < i < |rows| ensures !p(rows[i]) {
          assert rows[i] == rows[1..][i - 1];
        }
      }
    }
  }

  function HasId(id: int): Class -> bool {
    (c: Class) => c.id == id
  }

  function HasName(name: string): Class -> bool {
    (c: Class) => c.name == name
  }

  function Row(t: Table, p: Class -> bool): Option<Class> {
    match First(t.rows, p)
    case None => None
    case Some(i) => Some(t.rows[i])
  }

  /** `getById`. */
  function GetById(t: Table, id: int): Option<Class> {
    Row(t, HasId(id))
  }

  /** `getByName`: `WHERE name = $1`; an `undefined` name binds `NULL`, which equals nothing. */
  function GetByName(t: Table, name: Option<string>): Option<Class> {
    if name.None? then None else Row(t, HasName(name.value))
  }

  /** Lookup by id and by name finds exactly the matching row. */
  lemma GetByIdSpec(t: Table, id: int, c: Class)
    requires Valid(t)
    ensures GetById(t, id) == Some(c) <==> c in t.rows && c.id == id
  {
    FirstNone(t.rows, HasId(id));
    if c in t.rows && c.id == id {
      var k :| 0 <= k < |t.rows| && t.rows[k] == c;
      assert First(t.rows, HasId(id)) == Some(k);
    }
  }

  lemma GetByNameSpec(t: Table, name: string, c: Class)
    requires Valid(t)
    ensures GetByName(t, Some(name)) == Some(c) <==> c in t.rows && c.name == name
    ensures GetByName(t, Some(name)).None? <==> forall r :: r in t.rows ==> r.name != name
  {
    FirstNone(t.rows, HasName(name));
    if c in t.rows && c.name == name {
      var k :| 0 <= k < |t.rows| && t.rows[k] == c;
      assert First(t.rows, HasName(name)) == Some(k);
    }
  }

  // ---------------------------------------------------------------- create and update

  function Written(id: nat, name: string, d: ClassData): Class {
    Class(id, name, d.teacher, d.description, d.room, d.schedule, d.active)
  }

  datatype Saved = Saved(table: Table, cls: Class)

  /** A failed `INSERT`: the error, and the table it leaves behind. */
  datatype Rejected = Rejected(failure: Failure, table: Table)

  /** The table after an `INSERT` that drew an id and then failed: the `SERIAL`
      default is evaluated before `NOT NULL` and `UNIQUE` are checked, so the id is
      used up. */
  function Consumed(t: Table): Table {
    Table(t.rows, t.nextId + 1)
  }

  /** `create`: insert with the next id; a missing name violates `NOT NULL` and a taken
      one `UNIQUE`. */
  function Create(t: Table, d: ClassData): Result<Saved, Rejected> {
    if d.name.None? then Err(Rejected(NotNullViolation, Consumed(t)))
    else if GetByName(t, d.name).Some? then Err(Rejected(UniqueViolation, Consumed(t)))
    else
      var c := Written(t.nextId, d.name.value, d);
      Ok(Saved(Table(t.rows + [c], t.nextId + 1), c))
  }

  lemma CreateSpec(t: Table, d: ClassData)
    requires Valid(t)
    ensures Create(t, d).Err? <==> d.name.None? || exists r :: r in t.rows && r.name == d.name.value
    ensures Create(t, d).Err? ==>
      var f := Create(t, d).error;
      && f.failure == (if d.name.None? then NotNullViolation else UniqueViolation)
      && f.table.rows == t.rows && f.table.nextId == t.nextId + 1 && Valid(f.table)
    ensures Create(t, d).Ok? ==>
      var s := Create(t, d).value;
      && Valid(s.table)
      && s.table.rows == t.rows + [s.cls]
      && s.cls == Written(t.nextId, d.name.value, d)
  {
    if d.name.Some? {
      var name := d.name.value;
      FirstNone(t.rows, HasName(name));
      if exists r :: r in t.rows && r.name == name {
        var r :| r in t.rows && r.name == name;
        GetByNameSpec(t, name, r);
      }
    }
  }

  /** A create that fails still draws its id: the next successful create gets the
      id after it. */
  lemma FailedCreateSkipsId(t: Table, bad: ClassData, good: ClassData)
    requires Valid(t) && Create(t, bad).Err?
    requires good.name.Some? && forall r :: r in t.rows ==> r.name != good.name.value
    ensures var t' := Create(t, bad).error.table;
      && Create(t', good).Ok?
      && Create(t', good).value.cls.id == t.nextId + 1
      && forall c :: c in Create(t', good).value.table.rows ==> c.id != t.nextId
  {
    CreateSpec(t, bad);
    var t' := Create(t, bad).error.table;
    CreateSpec(t', good);
  }

  /** `update`: rewrite every column of the row with this id; `undefined` when there is
      none. The new name must be present and not another row's. */
  function Update(t: Table, id: int, d: ClassData): Result<Option<Saved>, Failure> {
    match First(t.rows, HasId(id))
    case None => Ok(None)
    case Some(i) =>
      if d.name.None? then Err(NotNullViolation)
      else if exists j :: 0 <= j < |t.rows| && j != i && t.rows[j].name == d.name.value then Err(UniqueViolation)
      else
        var c := Written(t.rows[i].id, d.name.value, d);
        Ok(Some(Saved(Table(t.rows[i := c], t.nextId), c)))
  }

  lemma UpdateSpec(t: Table, id: int, d: ClassData)
    requires Valid(t)
    ensures GetById(t, id).None? <==> Update(t, id, d) == Ok(None)
    ensures Update(t, id, d).Ok? && Update(t, id, d).value.Some? ==>
      var s := Update(t, id, d).value.value;
      && Valid(s.table)
      && GetById(s.table, id) == Some(s.cls)
      && s.cls == Written(id, d.name.value, d)
      && |s.table.rows| == |t.rows|
      && (forall j :: 0 <= j < |t.rows| && t.rows[j].id != id ==> s.table.rows[j] == t.rows[j])
  {
    match First(t.rows, HasId(id))
    case None =>
    case Some(i) =>
      if Update(t, id, d).Ok? {
        var s := Update(t, id, d).value.value;
        assert s.table.rows[i] == s.cls;
        assert Valid(s.table);
        GetByIdSpec(s.table, id, s.cls);
      }
  }

  // ---------------------------------------------------------------- guarded delete

  /** `SELECT COUNT(*) FROM members WHERE class = $name`. */
  function MemberCount(members: seq<MemberModel.Member>, name: string): nat {
    if members == [] then 0
    else (if members[0].className == Some(name) then 1 else 0) + MemberCount(members[1..], name)
  }

  lemma {:induction false} MemberCountPositive(members: seq<MemberModel.Member>, name: string)
    ensures MemberCount(members, name) > 0 <==> exists m :: m in members && m.className == Some(name)
  {
    if members != [] {
      MemberCountPositive(members[1..], name);
      assert members == [members[0]] + members[1..];
    }
  }

  function NotId(id: int): Class -> bool {
    (c: Class) => c.id != id
  }

  /** `delete`: refused while any member (active or not) names the class; otherwise
      the row with that id, if any, is removed. For a missing id the subquery yields
      `NULL`, no member matches, and nothing is deleted. */
  function Delete(t: Table, members: seq<MemberModel.Member>, id: int): Result<Table, Failure> {
    match GetById(t, id)
    case None => Ok(t)
    case Some(c) =>
      if MemberCount(members, c.name) > 0 then Err(HasMembers)
      else Ok(Table(Where(t.rows, NotId(id)), t.nextId))
  }

  lemma DeleteGuarded(t: Table, members: seq<MemberModel.Member>, id: int)
    requires Valid(t)
    ensures Delete(t, members, id).Err? <==>
      exists c, m :: c in t.rows && c.id == id && m in members && m.className == Some(c.name)
    ensures Delete(t, members, id).Err? ==> Delete(t, members, id).error == HasMembers
  {
    match GetById(t, id)
    case None =>
      FirstNone(t.rows, HasId(id));
    case Some(c) =>
      MemberCountPositive(members, c.name);
      GetByIdSpec(t, id, c);
      forall c' | c' in t.rows && c'.id == id ensures c' == c {
        GetByIdSpec(t, id, c');
      }
  }

  lemma DeleteRemovesOnly(t: Table, members: seq<MemberModel.Member>, id: int)
    requires Valid(t)
    ensures Delete(t, members, id).Ok? ==>
      var t' := Delete(t, members, id).value;
      && t'.nextId == t.nextId
      && (forall c :: c in t'.rows <==> c in t.rows && c.id != id)
  {
    WhereSpec(t.rows, NotId(id));
    if GetById(t, id).None? {
      FirstNone(t.rows, HasId(id));
    }
  }
}
