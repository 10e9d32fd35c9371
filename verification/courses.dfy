/**
 * The course controller: plain CRUD on the `Curso` table with an
 * undefined-based patch.
 */
module Courses {
  import opened Js
  import opened Tables
  import opened Http

  datatype Curso = Curso(nome: Value, descricao: Value)

  type CursoTable = Table<Curso>

  /** The request body both `create` and `update` read. */
  datatype CursoBody = CursoBody(nome: Value, descricao: Value)

  /** `create`: a missing or empty description is stored as NULL. */
  function Create(t: CursoTable, b: CursoBody): (r: Outcome<CursoTable>)
    requires Valid(t)
    ensures Valid(r.state) && r.reply.Created?
    ensures r.reply.id !in t.rows
    ensures r.state.rows.Keys == t.rows.Keys + {r.reply.id}
    ensures forall k :: k in t.rows ==> r.state.rows[k] == t.rows[k]
    ensures r.state.rows[r.reply.id].nome == Bound(b.nome)
    ensures Truthy(b.descricao) ==> r.state.rows[r.reply.id].descricao == b.descricao
    ensures !Truthy(b.descricao) ==> r.state.rows[r.reply.id].descricao == Null
  {
    var ins := Insert(t, Curso(Bound(b.nome), OrNull(b.descricao)));
    Outcome(Created(ins.id), ins.table)
  }

  /** `getById`: the row, or 404. */
  function GetById(t: CursoTable, id: int): (r: Option<Curso>)
    ensures r.None? <==> id !in t.rows
    ensures r.Some? ==> r.value == t.rows[id]
  {
    if id in t.rows then Some(t.rows[id]) else None
  }

  /** `update`: no supplied field is a 400 before the row is looked for, then 404, then the write. */
  function Update(t: CursoTable, id: int, b: CursoBody): (r: Outcome<CursoTable>)
    ensures r.reply == Ok || r.reply.Failed?
    ensures r.reply.Failed? ==> r.state == t
    ensures r.reply == Failed(NoFieldsToUpdate) <==> !Defined(b.nome) && !Defined(b.descricao)
    ensures r.reply == Failed(NotFound) <==> (Defined(b.nome) || Defined(b.descricao)) && id !in t.rows
    ensures r.reply == Ok <==> (Defined(b.nome) || Defined(b.descricao)) && id in t.rows
    ensures r.reply == Ok ==>
              && OthersUnchanged(t, r.state, id)
              && PatchedIfDefined(t.rows[id].nome, r.state.rows[id].nome, b.nome)
              && PatchedIfDefined(t.rows[id].descricao, r.state.rows[id].descricao, b.descricao)
    ensures Valid(t) ==> Valid(r.state)
  {
    if !Defined(b.nome) && !Defined(b.descricao) then Outcome(Failed(NoFieldsToUpdate), t)
    else if id !in t.rows then Outcome(Failed(NotFound), t)
    else
      var c := t.rows[id];
      Outcome(Ok, Put(t, id, Curso(if Defined(b.nome) then b.nome else c.nome,
                                   if Defined(b.descricao) then b.descricao else c.descricao)))
  }

  // `delete` is the shared `DeleteById`: 404 when no row has the id.

  // ------------------------------------------------------------------- lemmas

  /** What `create` stored is what `getById` returns. */
  lemma CreateThenGet(t: CursoTable, b: CursoBody)
    requires Valid(t)
    ensures var c := Create(t, b);
            GetById(c.state, c.reply.id) == Some(Curso(Bound(b.nome), OrNull(b.descricao)))
  {
  }

  /** Writing back the values a course already has leaves the table as it was (stored names are never undefined). */
  lemma UpdateWithCurrentValues(t: CursoTable, id: int)
    requires id in t.rows && Defined(t.rows[id].nome)
    ensures var c := t.rows[id];
            Update(t, id, CursoBody(c.nome, c.descricao)) == Outcome(Ok, t)
  {
    var c := t.rows[id];
    assert Put(t, id, c).rows == t.rows;
  }

  /** A deleted course is gone for `getById`, `update` and a second `delete`. */
  lemma DeletedIsGone(t: CursoTable, id: int, b: CursoBody)
    requires id in t.rows && (Defined(b.nome) || Defined(b.descricao))
    ensures var d := DeleteById(t, id).state;
            GetById(d, id).None?
            && Update(d, id, b).reply == Failed(NotFound)
            && DeleteById(d, id).reply == Failed(NotFound)
  {
  }
}
