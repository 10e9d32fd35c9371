/**
 * The relational store, abstracted to tables that map row ids to rows. A
 * table also carries the next id AUTOINCREMENT will hand out, which is
 * larger than every id in use.
 */
module Tables {
  import opened Js

  datatype Table<R> = Table(rows: map<int, R>, next: int)

  predicate Valid<R>(t: Table<R>)
  {
    1 <= t.next && forall k :: k in t.rows ==> 1 <= k < t.next
  }

  /** An INSERT: the new row gets an id no row has, and `lastID` reports it. */
  datatype Inserted<R> = Inserted(table: Table<R>, id: int)

  function Insert<R>(t: Table<R>, row: R): (r: Inserted<R>)
    requires Valid(t)
    ensures Valid(r.table)
    ensures r.id >= 1 && r.id !in t.rows
    ensures r.table.rows == t.rows[r.id := row]
  {
    Inserted(Table(t.rows[t.next := row], t.next + 1), t.next)
  }

  /** An UPDATE of one existing row. */
  function Put<R>(t: Table<R>, id: int, row: R): (r: Table<R>)
    requires id in t.rows
    ensures Valid(t) ==> Valid(r)
    ensures r.rows.Keys == t.rows.Keys && r.rows[id] == row
    ensures forall k :: k in t.rows && k != id ==> r.rows[k] == t.rows[k]
  {
    Table(t.rows[id := row], t.next)
  }

  /** A DELETE of one row; ids are never reused. */
  function Delete<R>(t: Table<R>, id: int): (r: Table<R>)
    ensures Valid(t) ==> Valid(r)
    ensures r.rows.Keys == t.rows.Keys - {id} && r.next == t.next
    ensures forall k :: k in r.rows ==> r.rows[k] == t.rows[k]
  {
    Table(t.rows - {id}, t.next)
  }

  /** `SELECT ... WHERE id = ?` with a body value: only a number can match an id. */
  predicate Refers<R>(t: Table<R>, v: Value)
  {
    v.Num? && v.n in t.rows
  }

  /** Everything outside row `id` is as it was. */
  ghost predicate OthersUnchanged<R>(t: Table<R>, t': Table<R>, id: int)
  {
    && t'.next == t.next
    && t'.rows.Keys == t.rows.Keys
    && forall k :: k in t.rows && k != id ==> t'.rows[k] == t.rows[k]
  }

  /** A column under a `!== undefined` patch: the supplied value, or the old one when undefined. */
  predicate PatchedIfDefined(before: Value, after: Value, supplied: Value)
  {
    (Defined(supplied) ==> after == supplied) && (!Defined(supplied) ==> after == before)
  }

  /** A column under an `if (field)` patch: the supplied value, or the old one when falsy. */
  predicate PatchedIfTruthy(before: Value, after: Value, supplied: Value)
  {
    (Truthy(supplied) ==> after == supplied) && (!Truthy(supplied) ==> after == before)
  }

  /** Rows of the `Usuario` table, as far as the joins read them. */
  datatype Usuario = Usuario(nome: Value)

  /** Rows of the `Proposta` table, as far as the joins read them. */
  datatype Proposta = Proposta(titulo: Value, descricao: Value)

  /** Two inserts in a row hand out two different ids. */
  lemma InsertsGetDistinctIds<R>(t: Table<R>, a: R, b: R)
    requires Valid(t)
    ensures var r1 := Insert(t, a);
            var r2 := Insert(r1.table, b);
            r1.id != r2.id && r2.table.rows[r1.id] == a && r2.table.rows[r2.id] == b
  {
  }

  /** An id deleted from a table is never handed out again. */
  lemma DeletedIdNotReused<R>(t: Table<R>, id: int, row: R)
    requires Valid(t) && id in t.rows
    ensures Insert(Delete(t, id), row).id != id
  {
  }
}
