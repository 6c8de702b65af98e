/**
 * The `keys` table shared by the admin endpoints and the command-line
 * tool: a map from key text to license type, and the two statements both
 * issue against it.
 */
module KeyStore {
  import opened Wrappers

  /** JavaScript truthiness of an optional string: absent and "" are falsy. */
  predicate Truthy(v: Option<string>)
    ensures !Truthy(v) <==> v == None || v == Some("")
  {
    v.Some? && v.value != ""
  }

  /** The table's rows, keyed by the unique `key_text` column. */
  type Rows = map<string, string>

  /** `INSERT ... ON CONFLICT DO NOTHING` and `DELETE ... WHERE key_text = $1`. */
  datatype Statement = InsertIfAbsent(key: string, keyType: string) | DeleteKey(key: string)

  /** The rows after a statement has run. */
  function Apply(rows: Rows, stmt: Statement): (r: Rows)
    ensures stmt.InsertIfAbsent? ==> r.Keys == rows.Keys + {stmt.key}
    ensures stmt.InsertIfAbsent? ==>
              r[stmt.key] == (if stmt.key in rows then rows[stmt.key] else stmt.keyType)
    ensures stmt.DeleteKey? ==> r.Keys == rows.Keys - {stmt.key}
    ensures forall k :: k in rows && k != stmt.key ==> k in r && r[k] == rows[k]
  {
    match stmt
    case InsertIfAbsent(k, t) => if k in rows then rows else rows[k := t]
    case DeleteKey(k) => rows - {k}
  }

  /** Inserting a key that is present leaves the table, its type included, unchanged. */
  lemma InsertPresentKeepsRows(rows: Rows, key: string, keyType: string)
    requires key in rows
    ensures Apply(rows, InsertIfAbsent(key, keyType)) == rows
  {
  }

  /** A repeated insert of the same key, with any type, changes nothing more. */
  lemma InsertIdempotent(rows: Rows, key: string, t1: string, t2: string)
    ensures var once := Apply(rows, InsertIfAbsent(key, t1));
            Apply(once, InsertIfAbsent(key, t2)) == once
  {
  }

  /** A repeated delete changes nothing more; deleting an absent key is harmless. */
  lemma DeleteIdempotent(rows: Rows, key: string)
    ensures var once := Apply(rows, DeleteKey(key));
            Apply(once, DeleteKey(key)) == once
    ensures key !in rows ==> Apply(rows, DeleteKey(key)) == rows
  {
    var once := Apply(rows, DeleteKey(key));
    assert Apply(once, DeleteKey(key)).Keys == once.Keys;
  }

  /** Revoking a key just issued restores the table it was issued into. */
  lemma DeleteUndoesInsert(rows: Rows, key: string, keyType: string)
    requires key !in rows
    ensures Apply(Apply(rows, InsertIfAbsent(key, keyType)), DeleteKey(key)) == rows
  {
    var r := Apply(Apply(rows, InsertIfAbsent(key, keyType)), DeleteKey(key));
    assert r.Keys == rows.Keys;
  }

  /** After a delete the key can be issued again, with a new type. */
  lemma InsertAfterDelete(rows: Rows, key: string, keyType: string)
    ensures Apply(Apply(rows, DeleteKey(key)), InsertIfAbsent(key, keyType)) == rows[key := keyType]
  {
    var r := Apply(Apply(rows, DeleteKey(key)), InsertIfAbsent(key, keyType));
    assert r.Keys == rows[key := keyType].Keys;
  }

  /** The `keys` table of the database. */
  class KeyTable {
    var rows: Rows

    constructor (initial: Rows)
      ensures rows == initial
    {
      rows := initial;
    }

    /**
     * Runs one statement. With the database reachable it takes effect and
     * `ok` is true; a failed query reports `ok == false` and changes nothing.
     */
    method Execute(stmt: Statement, dbUp: bool) returns (ok: bool)
      modifies this
      ensures ok == dbUp
      ensures rows == if dbUp then Apply(old(rows), stmt) else old(rows)
    {
      if dbUp {
        rows := Apply(rows, stmt);
      }
      ok := dbUp;
    }
  }
}
