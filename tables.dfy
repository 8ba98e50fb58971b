/** The backing collections (`products`, `repairs`, `inventory_requests`, `stores`) as
    in-memory tables: rows in the order the table returns them, keyed by their `id`
    column, with the three writes the panels issue (`insert`, `update(...).eq('id', id)`,
    `delete().eq('id', id)`). */
module Tables {
  import opened Seqs

  /** What a form submit sends to a table: nothing, a new row, or an update of the row
      with the form's hidden id. */
  datatype Write<P> = NoWrite | InsertRow(payload: P) | UpdateRow(id: string, payload: P)

  /** How an event handler ended: its control is not offered to this actor, a required
      field is empty, a confirmation or choice declined the write, the backend refused
      it, or the write went through. */
  datatype Outcome = NotOffered | Invalid | Declined | BackendError | Done

  /** No two rows share a key. */
  ghost predicate UniqueKeys<T>(rows: seq<T>, key: T -> string) {
    forall i, j :: 0 <= i < j < |rows| ==> key(rows[i]) != key(rows[j])
  }

  /** Some row has key `id`. */
  predicate HasKey<T>(rows: seq<T>, key: T -> string, id: string) {
    exists i :: 0 <= i < |rows| && key(rows[i]) == id
  }

  /** The rows an `.eq('id', id)` condition selects. */
  function KeyIs<T>(key: T -> string, id: string): T -> bool {
    r => key(r) == id
  }

  /** Looking a row up by key finds one exactly when the key is present, and what it
      finds is a row with that key. */
  lemma FindByKey<T>(rows: seq<T>, key: T -> string, id: string)
    ensures Find(rows, KeyIs(key, id)).Some? <==> HasKey(rows, key, id)
    ensures Find(rows, KeyIs(key, id)).Some? ==>
      Find(rows, KeyIs(key, id)).value in rows && key(Find(rows, KeyIs(key, id)).value) == id
  {
    if HasKey(rows, key, id) {
      var i :| 0 <= i < |rows| && key(rows[i]) == id;
      assert KeyIs(key, id)(rows[i]);
    }
  }

  lemma {:induction false} FilterKeepsUniqueKeys<T>(rows: seq<T>, key: T -> string, p: T -> bool)
    requires UniqueKeys(rows, key)
    ensures UniqueKeys(Filter(rows, p), key)
    decreases |rows|
  {
    if |rows| > 0 {
      var rest := rows[1..];
      FilterKeepsUniqueKeys(rest, key, p);
      if p(rows[0]) {
        var r := Filter(rows, p);
        assert r == [rows[0]] + Filter(rest, p);
        forall j | 1 <= j < |r| ensures key(r[0]) != key(r[j]) {
          assert r[j] in Filter(rest, p);
          var k :| 0 <= k < |rest| && rest[k] == r[j];
          assert rows[k + 1] == r[j];
        }
      }
    }
  }

  class Table<T(==)> {
    const key: T -> string
    var rows: seq<T>

    ghost predicate Valid()
      reads this
    {
      UniqueKeys(rows, key)
    }

    constructor (key: T -> string)
      ensures Valid() && this.key == key && rows == []
    {
      this.key := key;
      rows := [];
    }

    /** `insert([row])`; the backend refuses a row whose id is taken. */
    method Insert(row: T) returns (ok: bool)
      requires Valid()
      modifies this
      ensures Valid()
      ensures ok <==> !HasKey(old(rows), key, key(row))
      ensures rows == if ok then old(rows) + [row] else old(rows)
    {
      ok := !HasKey(rows, key, key(row));
      if ok {
        rows := rows + [row];
      }
    }

    /** `update(...).eq('id', id)`: every row with that id rewritten by `f`, which
        leaves the id alone; no row added or removed. */
    method Update(id: string, f: T -> T)
      requires Valid()
      requires forall r :: key(f(r)) == key(r)
      modifies this
      ensures Valid()
      ensures rows == UpdateWhere(old(rows), KeyIs(key, id), f)
    {
      rows := UpdateWhere(rows, KeyIs(key, id), f);
    }

    /** A form's write carried out: the insert of the row `made` builds from the
        payload, or the update of the form's id by `apply`. */
    method Commit<P>(w: Write<P>, made: P -> T, apply: P -> T -> T) returns (ok: bool)
      requires Valid() && !w.NoWrite?
      requires forall p, r :: key(apply(p)(r)) == key(r)
      modifies this
      ensures Valid()
      ensures w.InsertRow? ==> (ok <==> !HasKey(old(rows), key, key(made(w.payload))))
      ensures w.InsertRow? ==> rows == if ok then old(rows) + [made(w.payload)] else old(rows)
      ensures w.UpdateRow? ==> ok && rows == UpdateWhere(old(rows), KeyIs(key, w.id), apply(w.payload))
    {
      if w.InsertRow? {
        ok := Insert(made(w.payload));
      } else {
        Update(w.id, apply(w.payload));
        ok := true;
      }
    }

    /** `delete().eq('id', id)`: the row with that id removed, the rest kept in order. */
    method Delete(id: string)
      requires Valid()
      modifies this
      ensures Valid()
      ensures rows == Filter(old(rows), Not(KeyIs(key, id)))
      ensures !HasKey(rows, key, id)
    {
      FilterKeepsUniqueKeys(rows, key, Not(KeyIs(key, id)));
      rows := Filter(rows, Not(KeyIs(key, id)));
      forall i | 0 <= i < |rows| ensures key(rows[i]) != id {
        assert rows[i] in rows;
      }
    }
  }
}
