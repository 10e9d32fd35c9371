/**
 * The project-student controller: links in `Projeto_Aluno` between a project
 * and a user, both of which must exist when written.
 */
module ProjectStudents {
  import opened Js
  import opened Tables
  import opened Http
  import Projects

  datatype Link = Link(projeto: Value, usuario: Value)

  type LinkTable = Table<Link>

  /** The request body `create` and `update` read. */
  datatype LinkBody = LinkBody(projeto: Value, usuario: Value)

  predicate LinkIntact(l: Link, projetos: Projects.ProjetoTable, usuarios: Table<Usuario>)
  {
    Refers(projetos, l.projeto) && Refers(usuarios, l.usuario)
  }

  predicate AllLinksIntact(t: LinkTable, projetos: Projects.ProjetoTable, usuarios: Table<Usuario>)
  {
    forall k :: k in t.rows ==> LinkIntact(t.rows[k], projetos, usuarios)
  }

  /** `create`: the project, then the user, then the insert. */
  function Create(t: LinkTable, projetos: Projects.ProjetoTable, usuarios: Table<Usuario>, b: LinkBody)
    : (r: Outcome<LinkTable>)
    requires Valid(t)
    ensures Valid(r.state)
    ensures r.reply.Failed? ==> r.state == t
    ensures !Refers(projetos, b.projeto) ==> r.reply == Failed(RefNotFound(ProjetoRef))
    ensures Refers(projetos, b.projeto) && !Refers(usuarios, b.usuario) ==> r.reply == Failed(RefNotFound(UsuarioRef))
    ensures r.reply.Created? <==> Refers(projetos, b.projeto) && Refers(usuarios, b.usuario)
    ensures r.reply.Created? ==>
              r.reply.id !in t.rows && r.state.rows == t.rows[r.reply.id := Link(b.projeto, b.usuario)]
  {
    if !Refers(projetos, b.projeto) then Outcome(Failed(RefNotFound(ProjetoRef)), t)
    else if !Refers(usuarios, b.usuario) then Outcome(Failed(RefNotFound(UsuarioRef)), t)
    else
      var ins := Insert(t, Link(b.projeto, b.usuario));
      Outcome(Created(ins.id), ins.table)
  }

  /**
   * `update`: the empty-patch check comes before any lookup, the supplied
   * references are checked next (project before user), and only then does
   * the UPDATE find out whether the link exists.
   */
  function Update(t: LinkTable, projetos: Projects.ProjetoTable, usuarios: Table<Usuario>, id: int, b: LinkBody)
    : (r: Outcome<LinkTable>)
    ensures r.reply == Ok || r.reply.Failed?
    ensures r.reply.Failed? ==> r.state == t
    ensures r.reply == Failed(NoFieldsToUpdate) <==> !Defined(b.projeto) && !Defined(b.usuario)
    ensures r.reply == Failed(RefNotFound(ProjetoRef)) <==> Defined(b.projeto) && !Refers(projetos, b.projeto)
    ensures r.reply == Failed(RefNotFound(UsuarioRef)) <==>
              (Defined(b.projeto) ==> Refers(projetos, b.projeto)) && Defined(b.usuario) && !Refers(usuarios, b.usuario)
    ensures r.reply == Failed(NotFound) <==>
              (Defined(b.projeto) || Defined(b.usuario))
              && (Defined(b.projeto) ==> Refers(projetos, b.projeto))
              && (Defined(b.usuario) ==> Refers(usuarios, b.usuario))
              && id !in t.rows
    ensures r.reply == Ok <==>
              (Defined(b.projeto) || Defined(b.usuario))
              && (Defined(b.projeto) ==> Refers(projetos, b.projeto))
              && (Defined(b.usuario) ==> Refers(usuarios, b.usuario))
              && id in t.rows
    ensures r.reply == Ok ==>
              && OthersUnchanged(t, r.state, id)
              && PatchedIfDefined(t.rows[id].projeto, r.state.rows[id].projeto, b.projeto)
              && PatchedIfDefined(t.rows[id].usuario, r.state.rows[id].usuario, b.usuario)
    ensures Valid(t) ==> Valid(r.state)
  {
    if !Defined(b.projeto) && !Defined(b.usuario) then Outcome(Failed(NoFieldsToUpdate), t)
    else if Defined(b.projeto) && !Refers(projetos, b.projeto) then Outcome(Failed(RefNotFound(ProjetoRef)), t)
    else if Defined(b.usuario) && !Refers(usuarios, b.usuario) then Outcome(Failed(RefNotFound(UsuarioRef)), t)
    else if id !in t.rows then Outcome(Failed(NotFound), t)
    else
      var l := t.rows[id];
      Outcome(Ok, Put(t, id, Link(if Defined(b.projeto) then b.projeto else l.projeto,
                                  if Defined(b.usuario) then b.usuario else l.usuario)))
  }

  /** `getById`: the link joined with the user's name and the project's title. */
  datatype LinkView = LinkView(id: int, link: Link, usuarioNome: Value, projetoTitulo: Value)

  function GetById(t: LinkTable, projetos: Projects.ProjetoTable, usuarios: Table<Usuario>, id: int)
    : (r: Option<LinkView>)
    ensures r.Some? <==> id in t.rows && LinkIntact(t.rows[id], projetos, usuarios)
    ensures r.Some? ==>
              && r.value.id == id && r.value.link == t.rows[id]
              && r.value.usuarioNome == usuarios.rows[t.rows[id].usuario.n].nome
              && r.value.projetoTitulo == projetos.rows[t.rows[id].projeto.n].titulo
  {
    if id in t.rows && LinkIntact(t.rows[id], projetos, usuarios) then
      var l := t.rows[id];
      Some(LinkView(id, l, usuarios.rows[l.usuario.n].nome, projetos.rows[l.projeto.n].titulo))
    else None
  }

  // `delete` is the shared `DeleteById`: 404 when no row has the id.

  // ------------------------------------------------------------------- lemmas

  /** Creation and update only ever store links whose project and user exist. */
  lemma WritesKeepLinksIntact(t: LinkTable, projetos: Projects.ProjetoTable, usuarios: Table<Usuario>,
                              id: int, b: LinkBody)
    requires Valid(t) && AllLinksIntact(t, projetos, usuarios)
    ensures AllLinksIntact(Create(t, projetos, usuarios, b).state, projetos, usuarios)
    ensures AllLinksIntact(Update(t, projetos, usuarios, id, b).state, projetos, usuarios)
    ensures AllLinksIntact(DeleteById(t, id).state, projetos, usuarios)
  {
    var u := Update(t, projetos, usuarios, id, b);
    if u.reply == Ok {
      assert LinkIntact(t.rows[id], projetos, usuarios);
    }
  }

  /** The reference checks come before the existence check: a bad project on a missing link is a 400, not a 404. */
  lemma RefCheckBeforeNotFound(t: LinkTable, projetos: Projects.ProjetoTable, usuarios: Table<Usuario>,
                               id: int, b: LinkBody)
    requires id !in t.rows && Defined(b.projeto) && !Refers(projetos, b.projeto)
    ensures Update(t, projetos, usuarios, id, b).reply == Failed(RefNotFound(ProjetoRef))
  {
  }

  /** An update that moves a link to an existing project and user is seen by `getById`. */
  lemma UpdateThenGet(t: LinkTable, projetos: Projects.ProjetoTable, usuarios: Table<Usuario>,
                      id: int, b: LinkBody)
    requires id in t.rows && LinkIntact(Link(b.projeto, b.usuario), projetos, usuarios)
    ensures var u := Update(t, projetos, usuarios, id, b);
            u.reply == Ok && GetById(u.state, projetos, usuarios, id).Some?
            && GetById(u.state, projetos, usuarios, id).value.link == Link(b.projeto, b.usuario)
  {
  }
}
