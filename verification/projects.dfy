/**
 * The project controller: staff-only writes on the `Projeto` table, each
 * referencing one `Curso` and one `Proposta` that must exist.
 */
module Projects {
  import opened Js
  import opened Sessions
  import opened Tables
  import opened Http
  import Courses

  datatype Projeto = Projeto(titulo: Value, descricao: Value, prazo: Value, status: Value, feedback: Value,
                             curso: Value, proposta: Value)

  type ProjetoTable = Table<Projeto>

  /** The request body `create` and `update` read. */
  datatype ProjetoBody = ProjetoBody(titulo: Value, descricao: Value, prazo: Value, status: Value,
                                     feedback: Value, curso: Value, proposta: Value)

  /** Both references of a project lead to existing rows. */
  predicate RefsIntact(p: Projeto, cursos: Courses.CursoTable, propostas: Table<Proposta>)
  {
    Refers(cursos, p.curso) && Refers(propostas, p.proposta)
  }

  predicate AllRefsIntact(t: ProjetoTable, cursos: Courses.CursoTable, propostas: Table<Proposta>)
  {
    forall k :: k in t.rows ==> RefsIntact(t.rows[k], cursos, propostas)
  }

  /** The row `create` inserts: optional text columns fall back to NULL when falsy. */
  function NewProjeto(b: ProjetoBody): (p: Projeto)
    ensures p.titulo == Bound(b.titulo) && p.curso == b.curso && p.proposta == b.proposta
    ensures Truthy(b.descricao) ==> p.descricao == b.descricao
    ensures !Truthy(b.descricao) ==> p.descricao == Null
    ensures Truthy(b.prazo) ==> p.prazo == b.prazo
    ensures !Truthy(b.prazo) ==> p.prazo == Null
    ensures Truthy(b.status) ==> p.status == b.status
    ensures !Truthy(b.status) ==> p.status == Null
    ensures Truthy(b.feedback) ==> p.feedback == b.feedback
    ensures !Truthy(b.feedback) ==> p.feedback == Null
  {
    Projeto(Bound(b.titulo), OrNull(b.descricao), OrNull(b.prazo), OrNull(b.status), OrNull(b.feedback),
            b.curso, b.proposta)
  }

  /** `create`: staff gate, then the Curso, then the Proposta, then the insert. */
  function Create(t: ProjetoTable, cursos: Courses.CursoTable, propostas: Table<Proposta>,
                  b: ProjetoBody, s: Session): (r: Outcome<ProjetoTable>)
    requires Valid(t)
    ensures Valid(r.state)
    ensures r.reply.Failed? ==> r.state == t
    ensures !IsStaff(s.userRole) ==> r.reply == Failed(Forbidden)
    ensures IsStaff(s.userRole) && !Refers(cursos, b.curso) ==> r.reply == Failed(RefNotFound(CursoRef))
    ensures IsStaff(s.userRole) && Refers(cursos, b.curso) && !Refers(propostas, b.proposta) ==>
              r.reply == Failed(RefNotFound(PropostaRef))
    ensures r.reply.Created? <==> IsStaff(s.userRole) && Refers(cursos, b.curso) && Refers(propostas, b.proposta)
    ensures r.reply.Created? ==>
              r.reply.id !in t.rows && r.state.rows == t.rows[r.reply.id := NewProjeto(b)]
              && RefsIntact(r.state.rows[r.reply.id], cursos, propostas)
  {
    if !IsStaff(s.userRole) then Outcome(Failed(Forbidden), t)
    else if !Refers(cursos, b.curso) then Outcome(Failed(RefNotFound(CursoRef)), t)
    else if !Refers(propostas, b.proposta) then Outcome(Failed(RefNotFound(PropostaRef)), t)
    else
      var ins := Insert(t, NewProjeto(b));
      Outcome(Created(ins.id), ins.table)
  }

  /** At least one body field is not undefined. */
  predicate AnyDefined(b: ProjetoBody)
  {
    Defined(b.titulo) || Defined(b.descricao) || Defined(b.prazo) || Defined(b.status)
    || Defined(b.feedback) || Defined(b.curso) || Defined(b.proposta)
  }

  /** Every column follows the `!== undefined` patch rule. */
  predicate PatchedBy(before: Projeto, after: Projeto, b: ProjetoBody)
  {
    && PatchedIfDefined(before.titulo, after.titulo, b.titulo)
    && PatchedIfDefined(before.descricao, after.descricao, b.descricao)
    && PatchedIfDefined(before.prazo, after.prazo, b.prazo)
    && PatchedIfDefined(before.status, after.status, b.status)
    && PatchedIfDefined(before.feedback, after.feedback, b.feedback)
    && PatchedIfDefined(before.curso, after.curso, b.curso)
    && PatchedIfDefined(before.proposta, after.proposta, b.proposta)
  }

  function Patch(p: Projeto, b: ProjetoBody): (p': Projeto)
    ensures PatchedBy(p, p', b)
  {
    Projeto(if Defined(b.titulo) then b.titulo else p.titulo,
            if Defined(b.descricao) then b.descricao else p.descricao,
            if Defined(b.prazo) then b.prazo else p.prazo,
            if Defined(b.status) then b.status else p.status,
            if Defined(b.feedback) then b.feedback else p.feedback,
            if Defined(b.curso) then b.curso else p.curso,
            if Defined(b.proposta) then b.proposta else p.proposta)
  }

  /**
   * `update`: staff gate, 404, the empty-patch check, then only the supplied
   * references are checked (Curso before Proposta) before the write.
   */
  function Update(t: ProjetoTable, cursos: Courses.CursoTable, propostas: Table<Proposta>,
                  id: int, b: ProjetoBody, s: Session): (r: Outcome<ProjetoTable>)
    ensures r.reply == Ok || r.reply.Failed?
    ensures r.reply.Failed? ==> r.state == t
    ensures r.reply == Failed(Forbidden) <==> !IsStaff(s.userRole)
    ensures r.reply == Failed(NotFound) <==> IsStaff(s.userRole) && id !in t.rows
    ensures r.reply == Failed(NoFieldsToUpdate) <==> IsStaff(s.userRole) && id in t.rows && !AnyDefined(b)
    ensures r.reply == Failed(RefNotFound(CursoRef)) <==>
              IsStaff(s.userRole) && id in t.rows && Defined(b.curso) && !Refers(cursos, b.curso)
    ensures r.reply == Failed(RefNotFound(PropostaRef)) <==>
              IsStaff(s.userRole) && id in t.rows && (Defined(b.curso) ==> Refers(cursos, b.curso))
              && Defined(b.proposta) && !Refers(propostas, b.proposta)
    // every check passed: the update goes through
    ensures r.reply == Ok <==>
              IsStaff(s.userRole) && id in t.rows && AnyDefined(b)
              && (Defined(b.curso) ==> Refers(cursos, b.curso))
              && (Defined(b.proposta) ==> Refers(propostas, b.proposta))
    ensures r.reply == Ok ==>
              && OthersUnchanged(t, r.state, id)
              && PatchedBy(t.rows[id], r.state.rows[id], b)
    ensures Valid(t) ==> Valid(r.state)
  {
    if !IsStaff(s.userRole) then Outcome(Failed(Forbidden), t)
    else if id !in t.rows then Outcome(Failed(NotFound), t)
    else if !AnyDefined(b) then Outcome(Failed(NoFieldsToUpdate), t)
    else if Defined(b.curso) && !Refers(cursos, b.curso) then Outcome(Failed(RefNotFound(CursoRef)), t)
    else if Defined(b.proposta) && !Refers(propostas, b.proposta) then Outcome(Failed(RefNotFound(PropostaRef)), t)
    else Outcome(Ok, Put(t, id, Patch(t.rows[id], b)))
  }

  /** `delete`: staff gate, then 404, then the row goes. */
  function Delete(t: ProjetoTable, id: int, s: Session): (r: Outcome<ProjetoTable>)
    ensures r.reply == Ok <==> IsStaff(s.userRole) && id in t.rows
    ensures !IsStaff(s.userRole) ==> r == Outcome(Failed(Forbidden), t)
    ensures IsStaff(s.userRole) && id !in t.rows ==> r == Outcome(Failed(NotFound), t)
    ensures r.reply == Ok ==> r.state.rows == t.rows - {id} && r.state.next == t.next
    ensures Valid(t) ==> Valid(r.state)
  {
    if !IsStaff(s.userRole) then Outcome(Failed(Forbidden), t)
    else if id !in t.rows then Outcome(Failed(NotFound), t)
    else Outcome(Ok, Tables.Delete(t, id))
  }

  /** `getById`: the project joined with its course name and its proposal's title and description. */
  datatype ProjetoView = ProjetoView(id: int, projeto: Projeto, cursoNome: Value,
                                     propostaTitulo: Value, propostaDescricao: Value)

  function GetById(t: ProjetoTable, cursos: Courses.CursoTable, propostas: Table<Proposta>, id: int)
    : (r: Option<ProjetoView>)
    // the inner joins drop a project whose course or proposal is gone
    ensures r.Some? <==> id in t.rows && RefsIntact(t.rows[id], cursos, propostas)
    ensures r.Some? ==>
              && r.value.id == id && r.value.projeto == t.rows[id]
              && r.value.cursoNome == cursos.rows[t.rows[id].curso.n].nome
              && r.value.propostaTitulo == propostas.rows[t.rows[id].proposta.n].titulo
              && r.value.propostaDescricao == propostas.rows[t.rows[id].proposta.n].descricao
  {
    if id in t.rows && RefsIntact(t.rows[id], cursos, propostas) then
      var p := t.rows[id];
      var proposta := propostas.rows[p.proposta.n];
      Some(ProjetoView(id, p, cursos.rows[p.curso.n].nome, proposta.titulo, proposta.descricao))
    else None
  }

  // ------------------------------------------------------------------- lemmas

  /** Creation and update never leave a project pointing at a missing course or proposal. */
  lemma WritesKeepRefsIntact(t: ProjetoTable, cursos: Courses.CursoTable, propostas: Table<Proposta>,
                             id: int, b: ProjetoBody, s: Session)
    requires Valid(t) && AllRefsIntact(t, cursos, propostas)
    ensures AllRefsIntact(Create(t, cursos, propostas, b, s).state, cursos, propostas)
    ensures AllRefsIntact(Update(t, cursos, propostas, id, b, s).state, cursos, propostas)
    ensures AllRefsIntact(Delete(t, id, s).state, cursos, propostas)
  {
    var u := Update(t, cursos, propostas, id, b, s);
    if u.reply == Ok {
      assert RefsIntact(t.rows[id], cursos, propostas);
      assert RefsIntact(u.state.rows[id], cursos, propostas);
    }
  }

  /** With intact references, a created project is visible through `getById`. */
  lemma CreatedIsVisible(t: ProjetoTable, cursos: Courses.CursoTable, propostas: Table<Proposta>,
                         b: ProjetoBody, s: Session)
    requires Valid(t)
    requires Create(t, cursos, propostas, b, s).reply.Created?
    ensures var c := Create(t, cursos, propostas, b, s);
            var v := GetById(c.state, cursos, propostas, c.reply.id);
            v.Some? && v.value.projeto == NewProjeto(b)
  {
  }

  /** The staff gate comes before every lookup: a non-staff session learns nothing about the tables. */
  lemma StaffGateFirst(t: ProjetoTable, t': ProjetoTable, cursos: Courses.CursoTable, propostas: Table<Proposta>,
                       id: int, b: ProjetoBody, s: Session)
    requires Valid(t) && Valid(t') && !IsStaff(s.userRole)
    ensures Create(t, cursos, propostas, b, s).reply == Create(t', cursos, propostas, b, s).reply
    ensures Update(t, cursos, propostas, id, b, s).reply == Update(t', cursos, propostas, id, b, s).reply
    ensures Delete(t, id, s).reply == Delete(t', id, s).reply
  {
  }

  /** A staff update that supplies only `null`s writes them: NULL is a value, not an omission. */
  lemma NullIsWritten(t: ProjetoTable, cursos: Courses.CursoTable, propostas: Table<Proposta>,
                      id: int, s: Session)
    requires id in t.rows && IsStaff(s.userRole)
    ensures var b := ProjetoBody(Undefined, Null, Null, Null, Null, Undefined, Undefined);
            var u := Update(t, cursos, propostas, id, b, s);
            u.reply == Ok && u.state.rows[id] == t.rows[id].(descricao := Null, prazo := Null,
                                                             status := Null, feedback := Null)
  {
  }
}
