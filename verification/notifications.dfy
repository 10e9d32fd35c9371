/**
 * The notification controller: messages addressed to a user. The user is
 * checked on creation but not when a notification is re-addressed.
 */
module Notifications {
  import opened Js
  import opened Tables
  import opened Http

  datatype Notificacao = Notificacao(mensagem: Value, dataNotif: Value, usuario: Value)

  type NotificacaoTable = Table<Notificacao>

  /** The request body `create` and `update` read. */
  datatype NotificacaoBody = NotificacaoBody(mensagem: Value, usuario: Value, dataNotif: Value)

  /** `create`: the user must exist; a missing date becomes `today`, the UTC date as `YYYY-MM-DD`. */
  function Create(t: NotificacaoTable, usuarios: Table<Usuario>, b: NotificacaoBody, today: string)
    : (r: Outcome<NotificacaoTable>)
    requires Valid(t)
    ensures Valid(r.state)
    ensures r.reply.Created? <==> Refers(usuarios, b.usuario)
    ensures !r.reply.Created? ==> r == Outcome(Failed(RefNotFound(UsuarioRef)), t)
    ensures r.reply.Created? ==>
              && r.reply.id !in t.rows
              && r.state.rows.Keys == t.rows.Keys + {r.reply.id}
              && (forall k :: k in t.rows ==> r.state.rows[k] == t.rows[k])
              && var n := r.state.rows[r.reply.id];
              && n.mensagem == Bound(b.mensagem) && n.usuario == b.usuario
              && (Truthy(b.dataNotif) ==> n.dataNotif == b.dataNotif)
              && (!Truthy(b.dataNotif) ==> n.dataNotif == Str(today))
  {
    if !Refers(usuarios, b.usuario) then Outcome(Failed(RefNotFound(UsuarioRef)), t)
    else
      var ins := Insert(t, Notificacao(Bound(b.mensagem), Or(b.dataNotif, Str(today)), b.usuario));
      Outcome(Created(ins.id), ins.table)
  }

  /** `update`: any supplied field is written as given, the user reference included. */
  function Update(t: NotificacaoTable, id: int, b: NotificacaoBody): (r: Outcome<NotificacaoTable>)
    ensures r.reply == Ok || r.reply.Failed?
    ensures r.reply.Failed? ==> r.state == t
    ensures r.reply == Failed(NoFieldsToUpdate) <==> !Defined(b.mensagem) && !Defined(b.dataNotif) && !Defined(b.usuario)
    ensures r.reply == Failed(NotFound) <==>
              (Defined(b.mensagem) || Defined(b.dataNotif) || Defined(b.usuario)) && id !in t.rows
    ensures r.reply == Ok <==>
              (Defined(b.mensagem) || Defined(b.dataNotif) || Defined(b.usuario)) && id in t.rows
    ensures r.reply == Ok ==>
              && OthersUnchanged(t, r.state, id)
              && PatchedIfDefined(t.rows[id].mensagem, r.state.rows[id].mensagem, b.mensagem)
              && PatchedIfDefined(t.rows[id].dataNotif, r.state.rows[id].dataNotif, b.dataNotif)
              && PatchedIfDefined(t.rows[id].usuario, r.state.rows[id].usuario, b.usuario)
    ensures Valid(t) ==> Valid(r.state)
  {
    if !Defined(b.mensagem) && !Defined(b.dataNotif) && !Defined(b.usuario) then Outcome(Failed(NoFieldsToUpdate), t)
    else if id !in t.rows then Outcome(Failed(NotFound), t)
    else
      var n := t.rows[id];
      Outcome(Ok, Put(t, id, Notificacao(if Defined(b.mensagem) then b.mensagem else n.mensagem,
                                         if Defined(b.dataNotif) then b.dataNotif else n.dataNotif,
                                         if Defined(b.usuario) then b.usuario else n.usuario)))
  }

  /** `getById`: the notification joined with its user's name. */
  datatype NotificacaoView = NotificacaoView(id: int, notificacao: Notificacao, usuarioNome: Value)

  function GetById(t: NotificacaoTable, usuarios: Table<Usuario>, id: int): (r: Option<NotificacaoView>)
    ensures r.Some? <==> id in t.rows && Refers(usuarios, t.rows[id].usuario)
    ensures r.Some? ==>
              r.value.id == id && r.value.notificacao == t.rows[id]
              && r.value.usuarioNome == usuarios.rows[t.rows[id].usuario.n].nome
  {
    if id in t.rows && Refers(usuarios, t.rows[id].usuario) then
      Some(NotificacaoView(id, t.rows[id], usuarios.rows[t.rows[id].usuario.n].nome))
    else None
  }

  // `delete` is the shared `DeleteById`: 404 when no row has the id.

  // ------------------------------------------------------------------- lemmas

  /**
   * The controller re-addresses a notification to a user that does not
   * exist; afterwards `getById` no longer finds it, though the row is there.
   */
  lemma UpdateAcceptsMissingUser(t: NotificacaoTable, usuarios: Table<Usuario>, id: int, n: int)
    requires id in t.rows && n !in usuarios.rows
    ensures var u := Update(t, id, NotificacaoBody(Undefined, Num(n), Undefined));
            && u.reply == Ok
            && id in u.state.rows && !Refers(usuarios, u.state.rows[id].usuario)
            && GetById(u.state, usuarios, id).None?
  {
  }

  /** Creation, by contrast, never stores a reference to a missing user. */
  lemma CreateOnlyForExistingUser(t: NotificacaoTable, usuarios: Table<Usuario>, b: NotificacaoBody, today: string)
    requires Valid(t)
    ensures var c := Create(t, usuarios, b, today);
            c.reply.Created? ==> GetById(c.state, usuarios, c.reply.id).Some?
  {
  }
}
