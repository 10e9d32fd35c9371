/**
 * The feedback controller: comments a user leaves on a project. The
 * references are checked on creation and cannot be changed afterwards.
 */
module Feedbacks {
  import opened Js
  import opened Tables
  import opened Http
  import Projects

  datatype Feedback = Feedback(comentario: Value, anexos: Value, data: Value, usuario: Value, projeto: Value)

  type FeedbackTable = Table<Feedback>

  /** The request body `create` and `update` read. */
  datatype FeedbackBody = FeedbackBody(comentario: Value, anexos: Value, data: Value, usuario: Value, projeto: Value)

  /**
   * `create`: the user, then the project, then the insert. `today` is the
   * UTC date as `YYYY-MM-DD`, used when no date is given.
   */
  function Create(t: FeedbackTable, usuarios: Table<Usuario>, projetos: Projects.ProjetoTable,
                  b: FeedbackBody, today: string): (r: Outcome<FeedbackTable>)
    requires Valid(t)
    ensures Valid(r.state)
    ensures r.reply.Failed? ==> r.state == t
    ensures !Refers(usuarios, b.usuario) ==> r.reply == Failed(RefNotFound(UsuarioRef))
    ensures Refers(usuarios, b.usuario) && !Refers(projetos, b.projeto) ==> r.reply == Failed(RefNotFound(ProjetoRef))
    ensures r.reply.Created? <==> Refers(usuarios, b.usuario) && Refers(projetos, b.projeto)
    ensures r.reply.Created? ==>
              && r.reply.id !in t.rows
              && r.state.rows.Keys == t.rows.Keys + {r.reply.id}
              && (forall k :: k in t.rows ==> r.state.rows[k] == t.rows[k])
              && var f := r.state.rows[r.reply.id];
              && f.usuario == b.usuario && f.projeto == b.projeto
              && (Truthy(b.comentario) ==> f.comentario == b.comentario)
              && (!Truthy(b.comentario) ==> f.comentario == Null)
              && (Truthy(b.anexos) ==> f.anexos == b.anexos)
              && (!Truthy(b.anexos) ==> f.anexos == Null)
              && (Truthy(b.data) ==> f.data == b.data)
              && (!Truthy(b.data) ==> f.data == Str(today))
  {
    if !Refers(usuarios, b.usuario) then Outcome(Failed(RefNotFound(UsuarioRef)), t)
    else if !Refers(projetos, b.projeto) then Outcome(Failed(RefNotFound(ProjetoRef)), t)
    else
      var ins := Insert(t, Feedback(OrNull(b.comentario), OrNull(b.anexos), Or(b.data, Str(today)),
                                    b.usuario, b.projeto));
      Outcome(Created(ins.id), ins.table)
  }

  /** `update`: only the comment, attachments and date can change; the references in the body are ignored. */
  function Update(t: FeedbackTable, id: int, b: FeedbackBody): (r: Outcome<FeedbackTable>)
    ensures r.reply == Ok || r.reply.Failed?
    ensures r.reply.Failed? ==> r.state == t
    ensures r.reply == Failed(NoFieldsToUpdate) <==> !Defined(b.comentario) && !Defined(b.anexos) && !Defined(b.data)
    ensures r.reply == Failed(NotFound) <==>
              (Defined(b.comentario) || Defined(b.anexos) || Defined(b.data)) && id !in t.rows
    ensures r.reply == Ok <==>
              (Defined(b.comentario) || Defined(b.anexos) || Defined(b.data)) && id in t.rows
    ensures r.reply == Ok ==>
              && OthersUnchanged(t, r.state, id)
              && PatchedIfDefined(t.rows[id].comentario, r.state.rows[id].comentario, b.comentario)
              && PatchedIfDefined(t.rows[id].anexos, r.state.rows[id].anexos, b.anexos)
              && PatchedIfDefined(t.rows[id].data, r.state.rows[id].data, b.data)
              && r.state.rows[id].usuario == t.rows[id].usuario
              && r.state.rows[id].projeto == t.rows[id].projeto
    ensures Valid(t) ==> Valid(r.state)
  {
    if !Defined(b.comentario) && !Defined(b.anexos) && !Defined(b.data) then Outcome(Failed(NoFieldsToUpdate), t)
    else if id !in t.rows then Outcome(Failed(NotFound), t)
    else
      var f := t.rows[id];
      Outcome(Ok, Put(t, id, f.(comentario := if Defined(b.comentario) then b.comentario else f.comentario,
                                anexos := if Defined(b.anexos) then b.anexos else f.anexos,
                                data := if Defined(b.data) then b.data else f.data)))
  }

  /** `getById`: the feedback joined with its author's name and its project's title. */
  datatype FeedbackView = FeedbackView(id: int, feedback: Feedback, usuarioNome: Value, projetoTitulo: Value)

  function GetById(t: FeedbackTable, usuarios: Table<Usuario>, projetos: Projects.ProjetoTable, id: int)
    : (r: Option<FeedbackView>)
    ensures r.Some? <==> id in t.rows && Refers(usuarios, t.rows[id].usuario) && Refers(projetos, t.rows[id].projeto)
    ensures r.Some? ==>
              && r.value.id == id && r.value.feedback == t.rows[id]
              && r.value.usuarioNome == usuarios.rows[t.rows[id].usuario.n].nome
              && r.value.projetoTitulo == projetos.rows[t.rows[id].projeto.n].titulo
  {
    if id in t.rows && Refers(usuarios, t.rows[id].usuario) && Refers(projetos, t.rows[id].projeto) then
      var f := t.rows[id];
      Some(FeedbackView(id, f, usuarios.rows[f.usuario.n].nome, projetos.rows[f.projeto.n].titulo))
    else None
  }

  // `delete` is the shared `DeleteById`: 404 when no row has the id.

  // ------------------------------------------------------------------- lemmas

  /** Whatever references an update body carries, the result is the same as without them. */
  lemma ReferencesInBodyIgnored(t: FeedbackTable, id: int, b: FeedbackBody, usuario: Value, projeto: Value)
    ensures Update(t, id, b) == Update(t, id, b.(usuario := usuario, projeto := projeto))
  {
  }

  /** Once created, a feedback keeps its author and project through any sequence of updates. */
  lemma {:induction false} AuthorAndProjectFixed(t: FeedbackTable, id: int, bodies: seq<FeedbackBody>)
    requires id in t.rows
    ensures var t' := UpdateAll(t, id, bodies);
            id in t'.rows && t'.rows[id].usuario == t.rows[id].usuario && t'.rows[id].projeto == t.rows[id].projeto
    decreases |bodies|
  {
    if |bodies| > 0 {
      var t1 := Update(t, id, bodies[0]).state;
      AuthorAndProjectFixed(t1, id, bodies[1..]);
    }
  }

  /** A run of updates of one feedback, each applied to the table the previous one left. */
  function UpdateAll(t: FeedbackTable, id: int, bodies: seq<FeedbackBody>): (t': FeedbackTable)
    ensures t'.rows.Keys == t.rows.Keys
    decreases |bodies|
  {
    if |bodies| == 0 then t else UpdateAll(Update(t, id, bodies[0]).state, id, bodies[1..])
  }

  /** With no comment, attachments or date, a new feedback stores two NULLs and today's date. */
  lemma CreateDefaults(t: FeedbackTable, usuarios: Table<Usuario>, projetos: Projects.ProjetoTable,
                       u: Value, p: Value, today: string)
    requires Valid(t) && Refers(usuarios, u) && Refers(projetos, p)
    ensures var c := Create(t, usuarios, projetos, FeedbackBody(Undefined, Undefined, Undefined, u, p), today);
            c.reply.Created? && c.state.rows[c.reply.id] == Feedback(Null, Null, Str(today), u, p)
  {
  }
}
