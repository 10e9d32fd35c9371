/**
 * The idea controller: Community users post ideas, and only an idea's owner
 * may change or remove it.
 */
module Ideas {
  import opened Js
  import opened Sessions
  import opened Tables
  import opened Http
  import Users

  /** An `ideas` row; `userId` is the owner's id as the session held it. */
  datatype Idea = Idea(title: Value, description: Value, userId: Value, updatedAt: Option<int>)

  type IdeaTable = Table<Idea>

  /** The role allowed to create ideas. */
  const CommunityRole: Value := Str("Community")

  /** `create`: Community only, and the new idea belongs to the session's user. */
  function Create(t: IdeaTable, title: Value, description: Value, s: Session): (r: Outcome<IdeaTable>)
    requires Valid(t)
    ensures Valid(r.state)
    ensures r.reply.Created? <==> s.userRole == CommunityRole
    ensures !r.reply.Created? ==> r == Outcome(Failed(Forbidden), t)
    ensures r.reply.Created? ==>
              && r.reply.id !in t.rows
              && r.state.rows == t.rows[r.reply.id := Idea(Bound(title), Bound(description), Bound(s.userId), None)]
  {
    if s.userRole != CommunityRole then Outcome(Failed(Forbidden), t)
    else
      var ins := Insert(t, Idea(Bound(title), Bound(description), Bound(s.userId), None));
      Outcome(Created(ins.id), ins.table)
  }

  /** The owner test `idea.user_id !== userId`, negated. */
  predicate OwnedBy(i: Idea, s: Session)
  {
    i.userId == s.userId
  }

  /** `update`: 404, then ownership, then the empty-patch check, then the write. */
  function Update(t: IdeaTable, id: int, title: Value, description: Value, s: Session, now: int)
    : (r: Outcome<IdeaTable>)
    ensures r.reply == Ok || r.reply.Failed?
    ensures r.reply.Failed? ==> r.state == t
    ensures r.reply == Failed(NotFound) <==> id !in t.rows
    ensures r.reply == Failed(Forbidden) <==> id in t.rows && !OwnedBy(t.rows[id], s)
    ensures r.reply == Failed(NoFieldsToUpdate) <==>
              id in t.rows && OwnedBy(t.rows[id], s) && !Truthy(title) && !Truthy(description)
    ensures r.reply == Ok <==> id in t.rows && OwnedBy(t.rows[id], s) && (Truthy(title) || Truthy(description))
    // only the truthy fields and the timestamp change; owner and other rows stay
    ensures r.reply == Ok ==>
              && OthersUnchanged(t, r.state, id)
              && PatchedIfTruthy(t.rows[id].title, r.state.rows[id].title, title)
              && PatchedIfTruthy(t.rows[id].description, r.state.rows[id].description, description)
              && r.state.rows[id].userId == t.rows[id].userId
              && r.state.rows[id].updatedAt == Some(now)
    ensures Valid(t) ==> Valid(r.state)
  {
    if id !in t.rows then Outcome(Failed(NotFound), t)
    else
      var idea := t.rows[id];
      if !OwnedBy(idea, s) then Outcome(Failed(Forbidden), t)
      else if !Truthy(title) && !Truthy(description) then Outcome(Failed(NoFieldsToUpdate), t)
      else
        Outcome(Ok, Put(t, id, idea.(title := if Truthy(title) then title else idea.title,
                                     description := if Truthy(description) then description else idea.description,
                                     updatedAt := Some(now))))
  }

  /** `delete`: 404, then ownership, then the row goes. */
  function Delete(t: IdeaTable, id: int, s: Session): (r: Outcome<IdeaTable>)
    ensures r.reply == Ok || r.reply.Failed?
    ensures r.reply.Failed? ==> r.state == t
    ensures r.reply == Failed(NotFound) <==> id !in t.rows
    ensures r.reply == Failed(Forbidden) <==> id in t.rows && !OwnedBy(t.rows[id], s)
    ensures r.reply == Ok <==> id in t.rows && OwnedBy(t.rows[id], s)
    ensures r.reply == Ok ==> r.state.rows == t.rows - {id} && r.state.next == t.next
    ensures Valid(t) ==> Valid(r.state)
  {
    if id !in t.rows then Outcome(Failed(NotFound), t)
    else if !OwnedBy(t.rows[id], s) then Outcome(Failed(Forbidden), t)
    else Outcome(Ok, Tables.Delete(t, id))
  }

  /** `getById`: the idea joined with its owner's username and role. */
  datatype IdeaView = IdeaView(id: int, idea: Idea, username: Value, role: string)

  function GetById(t: IdeaTable, users: Users.UserTable, id: int): (r: Option<IdeaView>)
    // the inner join drops an idea whose owner row is gone
    ensures r.Some? <==> id in t.rows && Refers(users, t.rows[id].userId)
    ensures r.Some? ==> r.value.id == id && r.value.idea == t.rows[id]
                        && r.value.username == users.rows[t.rows[id].userId.n].username
                        && r.value.role == users.rows[t.rows[id].userId.n].role
  {
    if id in t.rows && Refers(users, t.rows[id].userId) then
      var owner := users.rows[t.rows[id].userId.n];
      Some(IdeaView(id, t.rows[id], owner.username, owner.role))
    else None
  }

  // ------------------------------------------------------------------- lemmas

  /** Whoever created an idea can update it with any non-empty title. */
  lemma CreatorCanUpdate(t: IdeaTable, title: Value, description: Value, s: Session,
                         newTitle: Value, now: int)
    requires Valid(t) && Defined(s.userId) && Truthy(newTitle)
    requires Create(t, title, description, s).reply.Created?
    ensures var c := Create(t, title, description, s);
            var u := Update(c.state, c.reply.id, newTitle, Undefined, s, now);
            u.reply == Ok && u.state.rows[c.reply.id].title == newTitle
            && u.state.rows[c.reply.id].description == Bound(description)
  {
  }

  /** Whoever created an idea can delete it, and afterwards it is gone for everyone. */
  lemma CreatorCanDelete(t: IdeaTable, users: Users.UserTable, title: Value, description: Value, s: Session)
    requires Valid(t) && Defined(s.userId)
    requires Create(t, title, description, s).reply.Created?
    ensures var c := Create(t, title, description, s);
            var d := Delete(c.state, c.reply.id, s);
            d.reply == Ok && d.state.rows == t.rows && GetById(d.state, users, c.reply.id).None?
  {
  }

  /** There is no staff override: a staff session that does not own the idea is refused and nothing changes. */
  lemma NoStaffOverride(t: IdeaTable, id: int, title: Value, description: Value, s: Session, now: int)
    requires id in t.rows && IsStaff(s.userRole) && !OwnedBy(t.rows[id], s)
    ensures Update(t, id, title, description, s, now) == Outcome(Failed(Forbidden), t)
    ensures Delete(t, id, s) == Outcome(Failed(Forbidden), t)
  {
  }

  /** Ownership is decided before the body: an empty patch from a stranger is still a 403. */
  lemma OwnershipBeforeEmptyPatch(t: IdeaTable, id: int, s: Session, now: int)
    requires id in t.rows && !OwnedBy(t.rows[id], s)
    ensures Update(t, id, Undefined, Str(""), s, now).reply == Failed(Forbidden)
  {
  }

  /** A Staff or Student session can never create an idea, whatever it submits. */
  lemma OnlyCommunityCreates(t: IdeaTable, title: Value, description: Value, s: Session)
    requires Valid(t) && IsUserRole(s.userRole) && s.userRole != CommunityRole
    ensures Create(t, title, description, s) == Outcome(Failed(Forbidden), t)
  {
  }
}
