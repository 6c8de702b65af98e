/** The license server's two operator endpoints over the `keys` table. */
module AdminServer {
  import opened Wrappers
  import opened KeyStore

  /** A JSON response body: a status with the key, or an error message. */
  datatype Body = StatusBody(status: string, key: string) | ErrorBody(error: string)

  datatype HttpResponse = HttpResponse(code: int, body: Body)

  const MissingKeyAndType: string := "Key and type are required"
  const MissingKey: string := "Key is required"
  const DatabaseError: string := "Database error"

  /**
   * `POST /admin/add-key`: both fields are required; the key is inserted
   * unless present, and the answer is "added" either way.
   */
  method AddKey(table: KeyTable, key: Option<string>, keyType: Option<string>, dbUp: bool)
    returns (res: HttpResponse)
    modifies table
    ensures !(Truthy(key) && Truthy(keyType)) ==>
              res == HttpResponse(400, ErrorBody(MissingKeyAndType)) && table.rows == old(table.rows)
    ensures Truthy(key) && Truthy(keyType) && dbUp ==>
              && res == HttpResponse(200, StatusBody("added", key.value))
              && table.rows == Apply(old(table.rows), InsertIfAbsent(key.value, keyType.value))
    ensures Truthy(key) && Truthy(keyType) && !dbUp ==>
              res == HttpResponse(500, ErrorBody(DatabaseError)) && table.rows == old(table.rows)
  {
    if !Truthy(key) || !Truthy(keyType) {
      return HttpResponse(400, ErrorBody(MissingKeyAndType));
    }
    var ok := table.Execute(InsertIfAbsent(key.value, keyType.value), dbUp);
    if ok {
      res := HttpResponse(200, StatusBody("added", key.value));
    } else {
      res := HttpResponse(500, ErrorBody(DatabaseError));
    }
  }

  /**
   * `POST /admin/revoke-key`: the key is required; its row is deleted, and
   * the answer is "revoked" whether or not it existed.
   */
  method RevokeKey(table: KeyTable, key: Option<string>, dbUp: bool) returns (res: HttpResponse)
    modifies table
    ensures !Truthy(key) ==>
              res == HttpResponse(400, ErrorBody(MissingKey)) && table.rows == old(table.rows)
    ensures Truthy(key) && dbUp ==>
              && res == HttpResponse(200, StatusBody("revoked", key.value))
              && table.rows == Apply(old(table.rows), DeleteKey(key.value))
    ensures Truthy(key) && !dbUp ==>
              res == HttpResponse(500, ErrorBody(DatabaseError)) && table.rows == old(table.rows)
  {
    if !Truthy(key) {
      return HttpResponse(400, ErrorBody(MissingKey));
    }
    var ok := table.Execute(DeleteKey(key.value), dbUp);
    if ok {
      res := HttpResponse(200, StatusBody("revoked", key.value));
    } else {
      res := HttpResponse(500, ErrorBody(DatabaseError));
    }
  }

  /**
   * Issuing a fresh key and then revoking it answers "added" then
   * "revoked" and leaves the table as it was.
   */
  method IssueThenRevoke(initial: Rows, key: string, keyType: string)
    returns (added: HttpResponse, revoked: HttpResponse, rows: Rows)
    requires key != "" && keyType != "" && key !in initial
    ensures added == HttpResponse(200, StatusBody("added", key))
    ensures revoked == HttpResponse(200, StatusBody("revoked", key))
    ensures rows == initial
  {
    var table := new KeyTable(initial);
    added := AddKey(table, Some(key), Some(keyType), true);
    revoked := RevokeKey(table, Some(key), true);
    DeleteUndoesInsert(initial, key, keyType);
    rows := table.rows;
  }

  /**
   * Revoking is idempotent: a second revoke of the same key answers
   * "revoked" again and leaves the table as the first one left it.
   */
  method RevokeTwice(initial: Rows, key: string)
    returns (first: HttpResponse, second: HttpResponse, once: Rows, twice: Rows)
    requires key != ""
    ensures first == second == HttpResponse(200, StatusBody("revoked", key))
    ensures once == twice && key !in twice
    ensures forall k :: k in initial && k != key ==> k in twice && twice[k] == initial[k]
  {
    var table := new KeyTable(initial);
    first := RevokeKey(table, Some(key), true);
    once := table.rows;
    second := RevokeKey(table, Some(key), true);
    twice := table.rows;
    DeleteIdempotent(initial, key);
  }
}
