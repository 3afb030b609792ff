// The class route handlers: creation behind a name check, lookup and update
// answering 404 for a missing class, and deletion answering 400 with the model's
// refusal.

module ClassesController {
  import opened Wrappers
  import opened Http
  import MemberModel
  import opened ClassModel

  const NotFound := "Turma não encontrada"
  const NameTaken := "Já existe uma turma com este nome"
  const Removed := "Turma removida com sucesso"

  datatype Handled = Handled(table: Table, reply: Reply<Class>)

  /** `getClass`. */
  function GetClass(t: Table, id: int): Reply<Class> {
    match GetById(t, id)
    case None => Fail(404, NotFound)
    case Some(c) => Success(c)
  }

  /** `createClass`: 400 when the name is taken, otherwise create and answer 201; an
      insert error is not caught here. */
  function CreateClass(t: Table, body: ClassData): Handled {
    if GetByName(t, body.name).Some? then Handled(t, Fail(400, NameTaken))
    else
      match Create(t, body)
      case Ok(s) => Handled(s.table, Reply(201, Data(s.cls)))
      case Err(f) => Handled(f.table, Reply(500, Unhandled(f.failure.message)))
  }

  /** `updateClass`; an update error is not caught here. */
  function UpdateClass(t: Table, id: int, body: ClassData): Handled {
    match Update(t, id, body)
    case Ok(None) => Handled(t, Fail(404, NotFound))
    case Ok(Some(s)) => Handled(s.table, Success(s.cls))
    case Err(e) => Handled(t, Reply(500, Unhandled(e.message)))
  }

  /** `deleteClass`: any error from the model becomes a 400 carrying its message. */
  function DeleteClass(t: Table, members: seq<MemberModel.Member>, id: int): Handled {
    match Delete(t, members, id)
    case Ok(t') => Handled(t', Reply(200, Note(Removed)))
    case Err(e) => Handled(t, Fail(400, e.message))
  }

  /** A taken name is a 400 and creates nothing; a free one creates the class and
      answers 201 with it; a missing name fails in the insert, which uses up an id. */
  lemma CreateClassSpec(t: Table, body: ClassData)
    requires Valid(t)
    ensures var h := CreateClass(t, body);
      && (h.reply.status == 400 <==> body.name.Some? && exists c :: c in t.rows && c.name == body.name.value)
      && (h.reply.status == 400 ==> h.table == t && h.reply.body == Problem(NameTaken, None, None))
      && (h.reply.status == 201 <==> body.name.Some? && forall c :: c in t.rows ==> c.name != body.name.value)
      && (h.reply.status == 201 ==>
            && h.table.rows == t.rows + [Written(t.nextId, body.name.value, body)]
            && h.reply.body == Data(Written(t.nextId, body.name.value, body))
            && Valid(h.table))
      && (body.name.None? ==> h.reply.status == 500 && h.table == Consumed(t))
  {
    CreateSpec(t, body);
    if body.name.Some? {
      var name := body.name.value;
      if exists c :: c in t.rows && c.name == name {
        var c :| c in t.rows && c.name == name;
        GetByNameSpec(t, name, c);
      } else {
        GetByNameSpec(t, name, Written(t.nextId, name, body));
      }
    }
  }

  /** `getClass` and `updateClass` answer 404 exactly when no class has the id. */
  lemma MissingClassIs404(t: Table, id: int, body: ClassData)
    requires Valid(t)
    ensures GetClass(t, id).status == 404 <==> forall c :: c in t.rows ==> c.id != id
    ensures UpdateClass(t, id, body).reply.status == 404 <==> forall c :: c in t.rows ==> c.id != id
    ensures UpdateClass(t, id, body).reply.status == 404 ==> UpdateClass(t, id, body).table == t
  {
    UpdateSpec(t, id, body);
    if c :| c in t.rows && c.id == id {
      GetByIdSpec(t, id, c);
    } else if GetById(t, id).Some? {
      GetByIdSpec(t, id, GetById(t, id).value);
    }
  }

  /** A class that members still name is answered 400 with the refusal and stays;
      otherwise the class is gone and the answer is 200. */
  lemma DeleteClassSpec(t: Table, members: seq<MemberModel.Member>, id: int)
    requires Valid(t)
    ensures var h := DeleteClass(t, members, id);
      && (h.reply.status == 400 <==>
            exists c, m :: c in t.rows && c.id == id && m in members && m.className == Some(c.name))
      && (h.reply.status == 400 ==> h.table == t && h.reply.body == Problem(HasMembers.message, None, None))
      && (h.reply.status != 400 ==>
            h.reply == Reply(200, Note(Removed)) && forall c :: c in h.table.rows <==> c in t.rows && c.id != id)
  {
    DeleteGuarded(t, members, id);
    DeleteRemovesOnly(t, members, id);
  }
}
