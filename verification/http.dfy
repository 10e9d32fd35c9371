/**
 * What a controller hands back: one reply, and the table it leaves behind.
 */
module Http {
  import opened Tables

  /** The referenced tables whose rows are looked up before a write. */
  datatype Ref = CursoRef | PropostaRef | ProjetoRef | UsuarioRef

  datatype Error =
    | InvalidRole            // 400 'Invalid role'
    | AlreadyExists          // 400 'Username or email already exists'
    | InvalidCredentials     // 401 'Invalid credentials'
    | NoFieldsToUpdate       // 400 'No fields to update'
    | RefNotFound(ref: Ref)  // 400 '<table> not found'
    | NotFound               // 404
    | Forbidden              // 403 role or ownership refusal
    | IllegalArguments       // 500 bcryptjs refuses a password that is not a string

  datatype Reply = Ok | Created(id: int) | Failed(error: Error)
  {
    function Status(): int
    {
      match this
      case Ok => 200
      case Created(_) => 201
      case Failed(e) =>
        match e
        case InvalidRole => 400
        case AlreadyExists => 400
        case InvalidCredentials => 401
        case NoFieldsToUpdate => 400
        case RefNotFound(_) => 400
        case NotFound => 404
        case Forbidden => 403
        case IllegalArguments => 500
    }
  }

  /** A reply together with the state of the table the handler writes. */
  datatype Outcome<S> = Outcome(reply: Reply, state: S)

  /**
   * `DELETE FROM <table> WHERE <key> = ?` answered from `this.changes`: 404
   * when no row had the id, otherwise 200 and exactly that row is gone. The
   * user, course, project-student, feedback and notification controllers
   * all delete this way.
   */
  function DeleteById<R>(t: Table<R>, id: int): (r: Outcome<Table<R>>)
    ensures r.reply == Ok <==> id in t.rows
    ensures r.reply != Ok ==> r == Outcome(Failed(NotFound), t)
    ensures r.reply == Ok ==> r.state.rows == t.rows - {id} && r.state.next == t.next
    ensures Valid(t) ==> Valid(r.state)
  {
    if id !in t.rows then Outcome(Failed(NotFound), t)
    else Outcome(Ok, Tables.Delete(t, id))
  }
}
