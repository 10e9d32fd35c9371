/**
 * The user controller: registration, login, lookup, update and deletion on
 * the `users` table. bcrypt is abstract: `hash` stands for `bcrypt.hash` and
 * `verify(password, hash)` for `bcrypt.compare`. Both take strings only:
 * bcryptjs rejects any other password, and the handlers answer that with a 500.
 */
module Users {
  import opened Js
  import opened Sessions
  import opened Tables
  import opened Http

  /**
   * A `users` row; `password` holds the hash, never the submitted text, and
   * `createdAt` the instant of the INSERT (the column's CURRENT_TIMESTAMP default).
   */
  datatype User = User(username: Value, email: Value, password: string, role: string,
                       createdAt: int, updatedAt: Option<int>)

  type UserTable = Table<User>

  /** The user object `login` reports: never the password. */
  datatype UserView = UserView(id: int, username: Value, email: Value, role: string)

  function View(id: int, u: User): (v: UserView)
    ensures v.id == id && v.username == u.username && v.email == u.email && v.role == u.role
  {
    UserView(id, u.username, u.email, u.role)
  }

  /** `column = ?` on a username or email column: NULL (or undefined) never matches. */
  predicate SameKey(stored: Value, given: Value)
  {
    Defined(given) && !given.Null? && stored == given
  }

  /** Some row already holds this username or this email (a UNIQUE constraint would fail). */
  predicate Taken(rows: map<int, User>, username: Value, email: Value)
  {
    exists k :: k in rows && (SameKey(rows[k].username, username) || SameKey(rows[k].email, email))
  }

  /** The UNIQUE constraints on `username` and `email`. */
  predicate UniqueAccounts(t: UserTable)
  {
    forall i, j :: i in t.rows && j in t.rows && i != j ==>
      !SameKey(t.rows[i].username, t.rows[j].username) && !SameKey(t.rows[i].email, t.rows[j].email)
  }

  /** `register` at instant `now`: role check, the hash, then the insert, which the UNIQUE constraints may refuse. */
  function Register(t: UserTable, username: Value, email: Value, password: Value, role: Value,
                    hash: string -> string, now: int): (r: Outcome<UserTable>)
    requires Valid(t)
    ensures Valid(r.state)
    // an unknown role is refused before anything is hashed or written
    ensures !IsUserRole(role) ==> r == Outcome(Failed(InvalidRole), t)
    // a password bcryptjs cannot hash is a 500, before the insert is tried
    ensures IsUserRole(role) && !password.Str? ==> r == Outcome(Failed(IllegalArguments), t)
    ensures IsUserRole(role) && password.Str? && Taken(t.rows, Bound(username), Bound(email)) ==>
              r == Outcome(Failed(AlreadyExists), t)
    ensures r.reply.Created? <==>
              IsUserRole(role) && password.Str? && !Taken(t.rows, Bound(username), Bound(email))
    ensures r.reply.Failed? ==> r.state == t
    // a new row with a fresh id, the hash in place of the password, no other row touched
    ensures r.reply.Created? ==>
              && r.reply.id !in t.rows
              && r.state.rows == t.rows[r.reply.id := User(Bound(username), Bound(email), hash(password.s), role.s, now, None)]
  {
    if !IsUserRole(role) then Outcome(Failed(InvalidRole), t)
    else if !password.Str? then Outcome(Failed(IllegalArguments), t)
    else
      var row := User(Bound(username), Bound(email), hash(password.s), role.s, now, None);
      if Taken(t.rows, row.username, row.email) then Outcome(Failed(AlreadyExists), t)
      else
        var ins := Insert(t, row);
        Outcome(Created(ins.id), ins.table)
  }

  /** What `login` answers, and the session it leaves behind. */
  datatype LoginStep = LoginStep(reply: Reply, user: Option<UserView>, session: Session)

  /** Row `k` is one `SELECT * FROM users WHERE username = ?` can return. */
  predicate Named(t: UserTable, k: int, username: Value)
  {
    k in t.rows && SameKey(t.rows[k].username, username)
  }

  /** The session fields a successful login writes. */
  function LoggedIn(s: Session, id: int, u: User): (s': Session)
    ensures Authenticated(s') == (id != 0) && s'.userRole == Str(u.role) && s'.username == u.username
    ensures s'.csrfToken == s.csrfToken
  {
    s.(userId := Num(id), userRole := Str(u.role), username := u.username)
  }

  /**
   * `login`: the row with that username (SQLite picks one; the UNIQUE
   * constraint makes it the only one), then the password compare.
   */
  ghost function Login(t: UserTable, username: Value, password: Value,
                       verify: (string, string) -> bool, s: Session): (r: LoginStep)
    ensures r.reply in {Ok, Failed(InvalidCredentials), Failed(IllegalArguments)}
    // a refusal reports no user and leaves the session untouched
    ensures r.reply != Ok ==> r.user.None? && r.session == s
    // an unknown user is a 401 whatever the password
    ensures (forall k :: !Named(t, k, username)) ==> r.reply == Failed(InvalidCredentials)
    // a known user with a password bcryptjs cannot compare is a 500
    ensures r.reply == Failed(IllegalArguments) <==> (exists k :: Named(t, k, username)) && !password.Str?
    ensures r.reply == Ok ==>
              password.Str?
              && exists k :: Named(t, k, username) && verify(password.s, t.rows[k].password)
                             && r.user == Some(View(k, t.rows[k]))
                             && r.session == LoggedIn(s, k, t.rows[k])
  {
    if exists k :: Named(t, k, username) then
      var k :| Named(t, k, username);
      if !password.Str? then
        LoginStep(Failed(IllegalArguments), None, s)
      else if verify(password.s, t.rows[k].password) then
        LoginStep(Ok, Some(View(k, t.rows[k])), LoggedIn(s, k, t.rows[k]))
      else
        LoginStep(Failed(InvalidCredentials), None, s)
    else
      LoginStep(Failed(InvalidCredentials), None, s)
  }

  /** The columns `getById` selects: the public ones and `created_at`. */
  datatype UserRecord = UserRecord(id: int, username: Value, email: Value, role: string, createdAt: int)

  /** `getById`: the row's public columns and creation instant, or 404. */
  function GetById(t: UserTable, id: int): (r: Option<UserRecord>)
    ensures r.None? <==> id !in t.rows
    ensures r.Some? ==> r.value.id == id && r.value.username == t.rows[id].username
                        && r.value.email == t.rows[id].email && r.value.role == t.rows[id].role
                        && r.value.createdAt == t.rows[id].createdAt
  {
    if id in t.rows then
      var u := t.rows[id];
      Some(UserRecord(id, u.username, u.email, u.role, u.createdAt))
    else None
  }

  /** The row `update` writes: every truthy field replaces its column, and `updated_at` is stamped. */
  function Patched(u: User, username: Value, email: Value, password: Value, role: Value,
                   hash: string -> string, now: int): (u': User)
    ensures PatchedIfTruthy(u.username, u'.username, username)
    ensures PatchedIfTruthy(u.email, u'.email, email)
    ensures Truthy(password) && password.Str? ==> u'.password == hash(password.s)
    ensures !Truthy(password) ==> u'.password == u.password
    ensures Truthy(role) && role.Str? ==> u'.role == role.s
    ensures !Truthy(role) ==> u'.role == u.role
    ensures u'.createdAt == u.createdAt && u'.updatedAt == Some(now)
  {
    User(if Truthy(username) then username else u.username,
         if Truthy(email) then email else u.email,
         if Truthy(password) && password.Str? then hash(password.s) else u.password,
         if Truthy(role) && role.Str? then role.s else u.role,
         u.createdAt, Some(now))
  }

  /** A role `update` accepts: falsy (not validated) or one of the four. */
  predicate RoleAccepted(role: Value)
  {
    !Truthy(role) || IsUserRole(role)
  }

  /** A password `update` can hash: falsy (not hashed) or a string. */
  predicate Hashable(password: Value)
  {
    !Truthy(password) || password.Str?
  }

  /** At least one field `update` would write. */
  predicate AnyTruthy(username: Value, email: Value, password: Value, role: Value)
  {
    Truthy(username) || Truthy(email) || Truthy(password) || Truthy(role)
  }

  /**
   * `update`: role check when a role is given, the hash when a password is
   * given, the empty-patch check, then the UPDATE, which finds no row (404)
   * or may hit a UNIQUE constraint.
   */
  function Update(t: UserTable, id: int, username: Value, email: Value, password: Value, role: Value,
                  hash: string -> string, now: int): (r: Outcome<UserTable>)
    ensures r.reply == Ok || r.reply.Failed?
    ensures r.reply.Failed? ==> r.state == t
    ensures r.reply == Failed(InvalidRole) <==> !RoleAccepted(role)
    ensures r.reply == Failed(IllegalArguments) <==> RoleAccepted(role) && !Hashable(password)
    ensures r.reply == Failed(NoFieldsToUpdate) <==>
              RoleAccepted(role) && !AnyTruthy(username, email, password, role)
    ensures r.reply == Failed(NotFound) <==>
              RoleAccepted(role) && Hashable(password) && AnyTruthy(username, email, password, role)
              && id !in t.rows
    ensures r.reply == Failed(AlreadyExists) <==>
              RoleAccepted(role) && Hashable(password) && AnyTruthy(username, email, password, role)
              && id in t.rows
              && Taken(t.rows - {id}, Patched(t.rows[id], username, email, password, role, hash, now).username,
                       Patched(t.rows[id], username, email, password, role, hash, now).email)
    // every check passed: the update goes through
    ensures r.reply == Ok <==>
              RoleAccepted(role) && Hashable(password) && AnyTruthy(username, email, password, role)
              && id in t.rows
              && !Taken(t.rows - {id}, Patched(t.rows[id], username, email, password, role, hash, now).username,
                        Patched(t.rows[id], username, email, password, role, hash, now).email)
    ensures r.reply == Ok ==>
              && OthersUnchanged(t, r.state, id)
              && r.state.rows[id] == Patched(t.rows[id], username, email, password, role, hash, now)
              && !Taken(t.rows - {id}, r.state.rows[id].username, r.state.rows[id].email)
    ensures Valid(t) ==> Valid(r.state)
  {
    if Truthy(role) && !IsUserRole(role) then Outcome(Failed(InvalidRole), t)
    else if Truthy(password) && !password.Str? then Outcome(Failed(IllegalArguments), t)
    else if !Truthy(username) && !Truthy(email) && !Truthy(password) && !Truthy(role) then
      Outcome(Failed(NoFieldsToUpdate), t)
    else if id !in t.rows then Outcome(Failed(NotFound), t)
    else
      var row := Patched(t.rows[id], username, email, password, role, hash, now);
      if Taken(t.rows - {id}, row.username, row.email) then Outcome(Failed(AlreadyExists), t)
      else Outcome(Ok, Put(t, id, row))
  }

  // `delete` is the shared `DeleteById`: 404 when no row has the id.

  // ------------------------------------------------------------------- lemmas

  /** Under the UNIQUE constraints a username names at most one row. */
  lemma NamedIsUnique(t: UserTable, i: int, j: int, username: Value)
    requires UniqueAccounts(t) && Named(t, i, username) && Named(t, j, username)
    ensures i == j
  {
  }

  /** Under the UNIQUE constraints, login decides on the one row with that username. */
  lemma LoginDecidesOnTheRow(t: UserTable, k: int, username: Value, password: Value,
                             verify: (string, string) -> bool, s: Session)
    requires UniqueAccounts(t) && Named(t, k, username)
    ensures var r := Login(t, username, password, verify, s);
            && (r.reply == Ok <==> password.Str? && verify(password.s, t.rows[k].password))
            && (r.reply == Ok ==> r.user == Some(View(k, t.rows[k])) && r.session == LoggedIn(s, k, t.rows[k]))
  {
    var r := Login(t, username, password, verify, s);
    if r.reply == Ok {
      var j :| Named(t, j, username) && verify(password.s, t.rows[j].password)
               && r.user == Some(View(j, t.rows[j])) && r.session == LoggedIn(s, j, t.rows[j]);
      NamedIsUnique(t, j, k, username);
    }
  }

  /** Registration keeps the UNIQUE constraints. */
  lemma RegisterKeepsUnique(t: UserTable, username: Value, email: Value, password: Value, role: Value,
                            hash: string -> string, now: int)
    requires Valid(t) && UniqueAccounts(t)
    ensures UniqueAccounts(Register(t, username, email, password, role, hash, now).state)
  {
    var r := Register(t, username, email, password, role, hash, now);
    if r.reply.Created? {
      var id := r.reply.id;
      forall i, j | i in r.state.rows && j in r.state.rows && i != j
        ensures !SameKey(r.state.rows[i].username, r.state.rows[j].username)
        ensures !SameKey(r.state.rows[i].email, r.state.rows[j].email)
      {
        if i == id {
          assert !(SameKey(t.rows[j].username, Bound(username)) || SameKey(t.rows[j].email, Bound(email)));
        } else if j == id {
          assert !(SameKey(t.rows[i].username, Bound(username)) || SameKey(t.rows[i].email, Bound(email)));
        }
      }
    }
  }

  /** Updates keep the UNIQUE constraints. */
  lemma UpdateKeepsUnique(t: UserTable, id: int, username: Value, email: Value, password: Value, role: Value,
                          hash: string -> string, now: int)
    requires UniqueAccounts(t)
    ensures UniqueAccounts(Update(t, id, username, email, password, role, hash, now).state)
  {
    var r := Update(t, id, username, email, password, role, hash, now);
    if r.reply == Ok {
      var row := r.state.rows[id];
      forall i, j | i in r.state.rows && j in r.state.rows && i != j
        ensures !SameKey(r.state.rows[i].username, r.state.rows[j].username)
        ensures !SameKey(r.state.rows[i].email, r.state.rows[j].email)
      {
        if i == id {
          assert j in t.rows - {id};
          assert !(SameKey(t.rows[j].username, row.username) || SameKey(t.rows[j].email, row.email));
        } else if j == id {
          assert i in t.rows - {id};
          assert !(SameKey(t.rows[i].username, row.username) || SameKey(t.rows[i].email, row.email));
        }
      }
    }
  }

  /** Deletion keeps the UNIQUE constraints. */
  lemma DeleteKeepsUnique(t: UserTable, id: int)
    requires UniqueAccounts(t)
    ensures UniqueAccounts(DeleteById(t, id).state)
  {
  }

  /** Registering the same username again is refused with the duplicate error. */
  lemma RegisterTwiceRefused(t: UserTable, username: Value, e1: Value, e2: Value, p1: Value, p2: Value,
                             role1: Value, role2: Value, hash: string -> string,
                             now: int)
    requires Valid(t) && username.Str?
    requires Register(t, username, e1, p1, role1, hash, now).reply.Created?
    requires IsUserRole(role2) && p2.Str?
    ensures var t1 := Register(t, username, e1, p1, role1, hash, now).state;
            Register(t1, username, e2, p2, role2, hash, now) == Outcome(Failed(AlreadyExists), t1)
  {
    var r := Register(t, username, e1, p1, role1, hash, now);
    assert SameKey(r.state.rows[r.reply.id].username, Bound(username));
  }

  /**
   * Register then log in: with a hash that `verify` accepts for its own
   * password, the new account logs in as itself with its role.
   */
  lemma RegisterThenLogin(t: UserTable, username: Value, email: Value, password: Value, role: Value,
                          hash: string -> string, now: int, verify: (string, string) -> bool, s: Session)
    requires Valid(t) && UniqueAccounts(t) && username.Str?
    requires Register(t, username, email, password, role, hash, now).reply.Created?
    requires verify(password.s, hash(password.s))
    ensures var r := Register(t, username, email, password, role, hash, now);
            var l := Login(r.state, username, password, verify, s);
            && l.reply == Ok
            && l.user == Some(UserView(r.reply.id, username, Bound(email), role.s))
            && l.session.userId == Num(r.reply.id) && Authenticated(l.session)
            && l.session.userRole == role && l.session.username == username
  {
    var r := Register(t, username, email, password, role, hash, now);
    RegisterKeepsUnique(t, username, email, password, role, hash, now);
    assert Named(r.state, r.reply.id, username);
    LoginDecidesOnTheRow(r.state, r.reply.id, username, password, verify, s);
  }

  /** A registered account is found by `getById` with what was submitted, stamped with the instant of registration. */
  lemma RegisterThenGetById(t: UserTable, username: Value, email: Value, password: Value, role: Value,
                            hash: string -> string, now: int)
    requires Valid(t)
    requires Register(t, username, email, password, role, hash, now).reply.Created?
    ensures var r := Register(t, username, email, password, role, hash, now);
            GetById(r.state, r.reply.id) == Some(UserRecord(r.reply.id, Bound(username), Bound(email), role.s, now))
  {
  }
}
