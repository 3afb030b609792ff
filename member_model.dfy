// The `members` table and the queries of the `Member` model: listing ordered by
// name, lookup and update by id, insertion, and the filtered search whose SQL text
// and parameter list are built clause by clause.

module MemberModel {
  import opened Wrappers
  import opened Text
  import opened Sql
  import Api

  /** A row of `members`; `None` is SQL `NULL`. */
  datatype Member = Member(
    id: nat,
    name: string,
    className: Option<string>,
    phone: Option<string>,
    email: Option<string>,
    birthdate: Option<string>,
    active: Option<bool>)

  /** The table and its `SERIAL` counter. */
  datatype Table = Table(rows: seq<Member>, nextId: nat)

  /** The fields a caller passes to `create` and `update`; `None` is `undefined`,
      which the driver sends as `NULL`. */
  datatype MemberData = MemberData(
    name: Option<string>,
    className: Option<string>,
    phone: Option<string>,
    email: Option<string>,
    birthdate: Option<string>,
    active: Option<bool>)

  /** An error raised by the database, with its SQLSTATE code when there is one. */
  datatype DbError = DbError(code: Option<string>, message: string)

  const NotNullViolation := DbError(Some("23502"), "null value in column \"name\" violates not-null constraint")

  /** `PRIMARY KEY (id)`. */
  predicate UniqueIds(rows: seq<Member>) {
    forall i, j :: 0 <= i < j < |rows| ==> rows[i].id != rows[j].id
  }

  /** Every id is below the counter. */
  predicate Issued(t: Table) {
    forall i :: 0 <= i < |t.rows| ==> t.rows[i].id < t.nextId
  }

  predicate Valid(t: Table) {
    UniqueIds(t.rows) && Issued(t)
  }

  function NameKey(m: Member): string {
    m.name
  }

  function IsActive(): Member -> bool {
    (m: Member) => m.active == Some(true)
  }

  // ---------------------------------------------------------------- single-query methods

  /** `getAll`: every row, ordered by name. */
  function GetAll(t: Table): seq<Member> {
    SortBy(t.rows, NameKey)
  }

  /** `getActive`: the rows whose `active` is true (not false, not `NULL`), ordered by name. */
  function GetActive(t: Table): seq<Member> {
    SortBy(Where(t.rows, IsActive()), NameKey)
  }

  lemma GetAllSpec(t: Table)
    ensures SortedBy(GetAll(t), NameKey)
    ensures multiset(GetAll(t)) == multiset(t.rows)
  {
    SortBySpec(t.rows, NameKey);
  }

  lemma GetActiveSpec(t: Table)
    ensures SortedBy(GetActive(t), NameKey)
    ensures forall m :: m in GetActive(t) <==> m in t.rows && m.active == Some(true)
    ensures forall m :: multiset(GetActive(t))[m] == if m.active == Some(true) then multiset(t.rows)[m] else 0
  {
    var w := Where(t.rows, IsActive());
    SortBySpec(w, NameKey);
    WhereSpec(t.rows, IsActive());
    WhereCount(t.rows, IsActive());
    forall m ensures m in GetActive(t) <==> m in w {
      assert m in GetActive(t) <==> m in multiset(GetActive(t));
      assert m in w <==> m in multiset(w);
    }
  }

  /** The position of the row with this id. */
  function IndexOf(rows: seq<Member>, id: int): (r: Option<nat>)
    ensures r.Some? ==> r.value < |rows| && rows[r.value].id == id
  {
    if rows == [] then None
    else if rows[0].id == id then Some(0)
    else match IndexOf(rows[1..], id)
      case None => None
      case Some(i) => Some(i + 1)
  }

  lemma {:induction false} IndexOfNone(rows: seq<Member>, id: int)
    ensures IndexOf(rows, id).None? <==> forall i :: 0 <= i < |rows| ==> rows[i].id != id
  {
    if rows != [] {
      IndexOfNone(rows[1..], id);
      if IndexOf(rows, id).None? {
        forall i | 0 <= i < |rows| ensures rows[i].id != id {
          if i > 0 {
            assert rows[i] == rows[1..][i - 1];
          }
        }
      }
    }
  }

  /** `getById`: the row with this id, or `undefined`. */
  function GetById(t: Table, id: int): Option<Member> {
    match IndexOf(t.rows, id)
    case None => None
    case Some(i) => Some(t.rows[i])
  }

  lemma GetByIdSpec(t: Table, id: int)
    requires UniqueIds(t.rows)
    ensures GetById(t, id).None? <==> forall m :: m in t.rows ==> m.id != id
    ensures GetById(t, id).Some? ==> GetById(t, id).value in t.rows && GetById(t, id).value.id == id
  {
    IndexOfNone(t.rows, id);
  }

  /** The new values `create` and `update` write into a row. */
  function Written(id: nat, name: string, d: MemberData): Member {
    Member(id, name, d.className, d.phone, d.email, d.birthdate, d.active)
  }

  datatype Saved = Saved(table: Table, member: Member)

  /** A failed `INSERT`: the error, and the table it leaves behind. */
  datatype Rejected = Rejected(error: DbError, table: Table)

  /** The table after an `INSERT` that drew an id and then failed: the `SERIAL`
      default is evaluated before the constraints are checked, so the id is used up. */
  function Consumed(t: Table): Table {
    Table(t.rows, t.nextId + 1)
  }

  /** `create`: insert a row with the next id. A missing name violates `NOT NULL`; a
      missing `active` is written as `NULL`, not the column default. */
  function Create(t: Table, d: MemberData): Result<Saved, Rejected> {
    if d.name.None? then Err(Rejected(NotNullViolation, Consumed(t)))
    else
      var m := Written(t.nextId, d.name.value, d);
      Ok(Saved(Table(t.rows + [m], t.nextId + 1), m))
  }

  /** Exactly a missing name fails, with the `NOT NULL` error, keeping the rows but
      using up an id; otherwise the new row, with the next id and the given fields,
      is appended and found by that id. */
  lemma CreateSpec(t: Table, d: MemberData)
    requires Valid(t)
    ensures d.name.None? <==> Create(t, d).Err?
    ensures Create(t, d).Err? ==>
      var f := Create(t, d).error;
      && f.error == NotNullViolation
      && f.table.rows == t.rows && f.table.nextId == t.nextId + 1 && Valid(f.table)
    ensures Create(t, d).Ok? ==>
      var s := Create(t, d).value;
      && Valid(s.table)
      && s.table.rows == t.rows + [s.member]
      && GetById(s.table, s.member.id) == Some(s.member)
      && s.member.id == t.nextId
      && s.member.name == d.name.value && s.member.className == d.className
      && s.member.active == d.active
  {
    if d.name.Some? {
      var s := Create(t, d).value;
      IndexOfNone(t.rows, s.member.id);
      IndexOfAppend(t.rows, s.member);
    }
  }

  /** A create that fails still draws its id: the next successful create gets the
      id after it, so the ids the table hands out have a gap. */
  lemma FailedCreateSkipsId(t: Table, bad: MemberData, good: MemberData)
    requires Valid(t) && bad.name.None? && good.name.Some?
    ensures var t' := Create(t, bad).error.table;
      && Create(t', good).Ok?
      && Create(t', good).value.member.id == t.nextId + 1
      && forall m :: m in Create(t', good).value.table.rows ==> m.id != t.nextId
  {
    CreateSpec(t, bad);
    var t' := Create(t, bad).error.table;
    CreateSpec(t', good);
  }

  lemma {:induction false} IndexOfAppend(rows: seq<Member>, m: Member)
    requires IndexOf(rows, m.id).None?
    ensures IndexOf(rows + [m], m.id) == Some(|rows|)
  {
    if rows != [] {
      assert (rows + [m])[1..] == rows[1..] + [m];
      IndexOfAppend(rows[1..], m);
    } else {
      assert (rows + [m])[0] == m;
    }
  }

  /** `update`: rewrite every column of the row with this id; `undefined` when there
      is none. Writing a missing name over an existing row violates `NOT NULL`. */
  function Update(t: Table, id: int, d: MemberData): Result<Option<Saved>, DbError> {
    match IndexOf(t.rows, id)
    case None => Ok(None)
    case Some(i) =>
      if d.name.None? then Err(NotNullViolation)
      else
        var m := Written(t.rows[i].id, d.name.value, d);
        Ok(Some(Saved(Table(t.rows[i := m], t.nextId), m)))
  }

  lemma UpdateSpec(t: Table, id: int, d: MemberData)
    requires Valid(t)
    ensures GetById(t, id).None? ==> Update(t, id, d) == Ok(None)
    ensures GetById(t, id).Some? && d.name.None? ==> Update(t, id, d).Err?
    ensures GetById(t, id).Some? && d.name.Some? ==>
      Update(t, id, d).Ok? && Update(t, id, d).value.Some? &&
      var s := Update(t, id, d).value.value;
      && Valid(s.table)
      && GetById(s.table, id) == Some(s.member)
      && s.member == Written(id, d.name.value, d)
      && |s.table.rows| == |t.rows|
      && (forall j :: 0 <= j < |t.rows| && t.rows[j].id != id ==> s.table.rows[j] == t.rows[j])
  {
    match IndexOf(t.rows, id)
    case None =>
    case Some(i) =>
      if d.name.Some? {
        var s := Update(t, id, d).value.value;
        assert s.table.rows[i] == s.member;
        assert IndexOf(s.table.rows, id) == Some(i) by {
          IndexOfFirst(s.table.rows, id, i);
        }
      }
  }

  lemma {:induction false} IndexOfFirst(rows: seq<Member>, id: int, i: nat)
    requires i < |rows| && rows[i].id == id
    requires forall j :: 0 <= j < i ==> rows[j].id != id
    ensures IndexOf(rows, id) == Some(i)
  {
    if i > 0 {
      IndexOfFirst(rows[1..], id, i - 1);
    }
  }

  // ---------------------------------------------------------------- search

  /** One filter `search` adds: the name/email/phone pattern, or the class. */
  datatype Filter = TermFilter(pattern: string) | ClassFilter(name: string)

  /** The filters `search(query, classFilter)` adds, in order: a non-blank term
      becomes the pattern `%term%` of the trimmed term, then a non-blank class
      filter becomes the trimmed class. */
  function Filters(query: Option<string>, classFilter: Option<string>): seq<Filter> {
    (if Api.Given(query) then [TermFilter("%" + Trim(query.value) + "%")] else [])
    + (if Api.Given(classFilter) then [ClassFilter(Trim(classFilter.value))] else [])
  }

  const Base := "SELECT * FROM members WHERE active = true"
  const OrderByName := " ORDER BY name"

  function Placeholder(n: nat): string {
    "$" + NatToString(n)
  }

  /** The SQL a filter contributes, with its placeholder numbered `n`. */
  function Clause(f: Filter, n: nat): string {
    match f
    case TermFilter(_) =>
      var p := Placeholder(n);
      " AND (name ILIKE " + p + " OR email ILIKE " + p + " OR phone ILIKE " + p + ")"
    case ClassFilter(_) => " AND class = " + Placeholder(n)
  }

  function Param(f: Filter): string {
    match f
    case TermFilter(p) => p
    case ClassFilter(c) => c
  }

  /** The clauses of `fs`, numbered consecutively from `n`. */
  function Clauses(fs: seq<Filter>, n: nat): string
    decreases |fs|
  {
    if fs == [] then "" else Clauses(fs[..|fs| - 1], n) + Clause(fs[|fs| - 1], n + |fs| - 1)
  }

  function Params(fs: seq<Filter>): (ps: seq<string>)
    ensures |ps| == |fs|
  {
    if fs == [] then [] else Params(fs[..|fs| - 1]) + [Param(fs[|fs| - 1])]
  }

  datatype Query = Query(sql: string, params: seq<string>)

  /** Adding a filter adds its clause, numbered after the others, and its parameter. */
  lemma ClausesSnoc(fs: seq<Filter>, f: Filter, n: nat)
    ensures Clauses(fs + [f], n) == Clauses(fs, n) + Clause(f, n + |fs|)
    ensures Params(fs + [f]) == Params(fs) + [Param(f)]
  {
    assert (fs + [f])[..|fs|] == fs;
  }

  lemma AppendAssoc(a: string, b: string, c: string)
    ensures (a + b) + c == a + (b + c)
  {
  }

  /** One `if` of `search`: append the filter's clause with placeholder
      `$paramCount`, push its parameter and count it. */
  method AddFilter(sql: string, params: seq<string>, paramCount: nat, ghost done: seq<Filter>, f: Filter)
    returns (sql': string, params': seq<string>, paramCount': nat)
    requires sql == Base + Clauses(done, 1) && params == Params(done) && paramCount == |done| + 1
    ensures sql' == Base + Clauses(done + [f], 1) && params' == Params(done + [f]) && paramCount' == |done| + 2
  {
    ClausesSnoc(done, f, 1);
    AppendAssoc(Base, Clauses(done, 1), Clause(f, paramCount));
    sql' := sql + Clause(f, paramCount);
    params' := params + [Param(f)];
    paramCount' := paramCount + 1;
  }

  /** `search`: the SQL text and the parameters, built one clause at a time. */
  method Search(query: Option<string>, classFilter: Option<string>) returns (q: Query)
    ensures var fs := Filters(query, classFilter);
      q == Query(Base + Clauses(fs, 1) + OrderByName, Params(fs))
  {
    var sql := Base;
    var params: seq<string> := [];
    var paramCount: nat := 1;
    ghost var done: seq<Filter> := [];
    if Api.Given(query) {
      var f := TermFilter("%" + Trim(query.value) + "%");
      sql, params, paramCount := AddFilter(sql, params, paramCount, done, f);
      done := done + [f];
    }
    if Api.Given(classFilter) {
      var f := ClassFilter(Trim(classFilter.value));
      sql, params, paramCount := AddFilter(sql, params, paramCount, done, f);
      done := done + [f];
    }
    assert done == Filters(query, classFilter);
    sql := sql + OrderByName;
    q := Query(sql, params);
  }

  /** The shape of the query: the `active = true` restriction first and the
      ordering last; one parameter per placeholder, the term's before the class's. */
  lemma SearchShape(query: Option<string>, classFilter: Option<string>)
    ensures var fs := Filters(query, classFilter);
      && |fs| == (if Api.Given(query) then 1 else 0) + (if Api.Given(classFilter) then 1 else 0)
      && (Api.Given(query) ==> fs[0] == TermFilter("%" + Trim(query.value) + "%"))
      && (Api.Given(classFilter) ==> fs[|fs| - 1] == ClassFilter(Trim(classFilter.value)))
      && |Params(fs)| == |fs|
  {
  }

  lemma PlaceholderDigits()
    ensures Placeholder(1) == "$1" && Placeholder(2) == "$2"
  {
    assert NatToString(1) == "1" && NatToString(2) == "2";
  }

  /** The class filter's placeholder is `$2` after a term and `$1` without one. */
  lemma ClassPlaceholder(query: Option<string>, classFilter: Option<string>)
    requires Api.Given(classFilter)
    ensures var fs := Filters(query, classFilter);
      var cls := ClassFilter(Trim(classFilter.value));
      && |fs| == (if Api.Given(query) then 2 else 1)
      && Clauses(fs, 1) == (if Api.Given(query) then Clause(fs[0], 1) else "") + Clause(cls, |fs|)
  {
    var fs := Filters(query, classFilter);
    var cls := ClassFilter(Trim(classFilter.value));
    var before := fs[..|fs| - 1];
    assert fs == before + [cls];
    ClausesSnoc(before, cls, 1);
    if Api.Given(query) {
      assert before == [] + [fs[0]];
      ClausesSnoc([], fs[0], 1);
    } else {
      assert before == [];
    }
  }

  // ---------------------------------------------------------------- what the search returns

  /** `column ILIKE pattern` on a nullable column: `NULL` never matches. */
  predicate ColumnLike(c: Option<string>, pattern: string) {
    c.Some? && ILike(c.value, pattern)
  }

  predicate Satisfies(m: Member, f: Filter) {
    match f
    case TermFilter(p) => ILike(m.name, p) || ColumnLike(m.email, p) || ColumnLike(m.phone, p)
    case ClassFilter(c) => m.className == Some(c)
  }

  predicate SatisfiesAll(m: Member, fs: seq<Filter>) {
    forall i :: 0 <= i < |fs| ==> Satisfies(m, fs[i])
  }

  function Matching(fs: seq<Filter>): Member -> bool {
    (m: Member) => m.active == Some(true) && SatisfiesAll(m, fs)
  }

  /** The rows the search query returns. */
  function SearchRows(t: Table, query: Option<string>, classFilter: Option<string>): seq<Member> {
    SortBy(Where(t.rows, Matching(Filters(query, classFilter))), NameKey)
  }

  /** Lower-case containment in a nullable column. */
  predicate ColumnContains(c: Option<string>, term: string) {
    c.Some? && Contains(Lower(c.value), Lower(term))
  }

  /**
   * A member is found iff it is active, the trimmed term (when given) occurs
   * case-insensitively in its name, email or phone, and its class equals the trimmed
   * class filter (when given). This holds for terms without `%`, `_` or a backslash,
   * which the query passes through as pattern syntax.
   */
  lemma SearchRowsSpec(t: Table, query: Option<string>, classFilter: Option<string>, m: Member)
    requires Api.Given(query) ==> Literal(Trim(query.value))
    ensures SortedBy(SearchRows(t, query, classFilter), NameKey)
    ensures m in SearchRows(t, query, classFilter) <==>
      && m in t.rows
      && m.active == Some(true)
      && (Api.Given(query) ==>
            var term := Trim(query.value);
            Contains(Lower(m.name), Lower(term)) || ColumnContains(m.email, term) || ColumnContains(m.phone, term))
      && (Api.Given(classFilter) ==> m.className == Some(Trim(classFilter.value)))
  {
    var fs := Filters(query, classFilter);
    var w := Where(t.rows, Matching(fs));
    SortBySpec(w, NameKey);
    WhereSpec(t.rows, Matching(fs));
    assert m in SearchRows(t, query, classFilter) <==> m in w by {
      assert m in SearchRows(t, query, classFilter) <==> m in multiset(SearchRows(t, query, classFilter));
      assert m in w <==> m in multiset(w);
    }
    SearchShape(query, classFilter);
    if Api.Given(query) {
      var term := Trim(query.value);
      ILikeContains(m.name, term);
      if m.email.Some? {
        ILikeContains(m.email.value, term);
      }
      if m.phone.Some? {
        ILikeContains(m.phone.value, term);
      }
      assert Satisfies(m, fs[0]) <==>
        Contains(Lower(m.name), Lower(term)) || ColumnContains(m.email, term) || ColumnContains(m.phone, term);
    }
  }

  /** No filter: the search is `getActive`. */
  lemma UnfilteredSearchIsActive(t: Table)
    ensures SearchRows(t, Some(""), Some("")) == SearchRows(t, None, None)
    ensures forall m :: m in SearchRows(t, None, None) <==> m in t.rows && m.active == Some(true)
  {
    assert Filters(None, None) == [];
    forall m ensures m in SearchRows(t, None, None) <==> m in t.rows && m.active == Some(true) {
      SearchRowsSpec(t, None, None, m);
    }
  }

  lemma LikeExample()
    ensures Like("ana", "%a_a%")
  {
    assert Like("", "") && Like("", "%");
    assert Like("a", "a%");
    assert Like("na", "_a%");
    assert Like("ana", "a_a%");
  }

  /** The term is a pattern: `_` matches any one character, so `A_a` finds `Ana`. */
  lemma UnderscoreIsWildcard()
    ensures var m := Member(1, "Ana", None, None, None, None, Some(true));
      m in SearchRows(Table([m], 2), Some("A_a"), None)
  {
    var m := Member(1, "Ana", None, None, None, None, Some(true));
    var fs := Filters(Some("A_a"), None);
    TrimNoop("A_a");
    assert Api.Given(Some("A_a"));
    assert fs == [TermFilter("%" + "A_a" + "%")];
    assert ILike("Ana", "%" + "A_a" + "%") by {
      assert Lower("Ana") == "ana";
      assert Lower("%" + "A_a" + "%") == "%a_a%";
      LikeExample();
    }
    assert Matching(fs)(m);
    WhereSpec([m], Matching(fs));
    SortBySpec(Where([m], Matching(fs)), NameKey);
    assert m in multiset(SearchRows(Table([m], 2), Some("A_a"), None));
  }
}
