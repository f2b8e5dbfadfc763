/** ingest/token-repository.js: looking up an API token. The module as
    shipped answers every lookup with a fixed account and environment before
    reaching its real logic; that logic, a file cache in front of a MySQL
    `tokens` table, is modelled as well. */
module TokenRepository {

  /** A row of the `tokens` table; `revoked` is 0 for a live token. */
  datatype Row = Row(token: string, accountId: int, environmentId: int, revoked: int)

  /** What `findToken` passes to its callback. */
  datatype Reply =
    | Scope(accountId: int, environmentId: int)  // the fixed object of the shipped stub
    | TokenRow(row: Row)                         // a row, from the cache or the table
    | NoToken                                    // cb(null)

  /** What `WHERE token = ? AND revoked = 0` selects. */
  predicate Live(r: Row, token: string) {
    r.token == token && r.revoked == 0
  }

  /** The result of the SELECT: the live rows for `token`, in table order. */
  function Query(rows: seq<Row>, token: string): (r: seq<Row>)
    ensures |r| <= |rows|
    ensures forall i :: 0 <= i < |r| ==> Live(r[i], token)
    ensures forall x :: x in rows && Live(x, token) ==> x in r
    ensures forall x :: x in r ==> x in rows
    ensures r != [] ==> exists i :: 0 <= i < |rows| && rows[i] == r[0] &&
                                    forall j :: 0 <= j < i ==> !Live(rows[j], token)
  {
    if rows == [] then []
    else
      var rest := Query(rows[1..], token);
      if Live(rows[0], token) then [rows[0]] + rest
      else
        assert rest != [] ==> exists i :: 0 <= i < |rows| && rows[i] == rest[0] &&
                                         forall j :: 0 <= j < i ==> !Live(rows[j], token) by {
          if rest != [] {
            var i :| 0 <= i < |rows[1..]| && rows[1..][i] == rest[0] &&
                     forall j :: 0 <= j < i ==> !Live(rows[1..][j], token);
            assert forall j :: 0 <= j < i + 1 ==> !Live(rows[j], token) by {
              forall j | 0 <= j < i + 1 ensures !Live(rows[j], token) {
                if j > 0 {
                  assert rows[j] == rows[1..][j - 1];
                }
              }
            }
          }
        }
        rest
  }

  /** A table with no live row for `token` answers the SELECT with nothing. */
  lemma NoLiveRow(rows: seq<Row>, token: string)
    ensures Query(rows, token) == [] <==> forall i :: 0 <= i < |rows| ==> !Live(rows[i], token)
  {
    if Query(rows, token) != [] {
      assert Live(Query(rows, token)[0], token);
    }
  }

  /** The file cache (`/tmp/token-cache-<token>`, one file per token) and the
      table behind it. */
  class Repository {
    var cache: map<string, Row>
    var table: seq<Row>
    /** How many times the table has been queried. */
    var queries: nat

    /** Every cached row is the row of its own token, and was live when it
        was written. */
    predicate Valid()
      reads this
    {
      forall t :: t in cache ==> Live(cache[t], t)
    }

    constructor(rows: seq<Row>)
      ensures Valid()
      ensures cache == map[] && table == rows && queries == 0
    {
      cache := map[];
      table := rows;
      queries := 0;
    }

    /** `findToken` as shipped: a fixed scope, whatever the token, and a
        return before the cache or the table is touched. */
    method FindTokenShipped(token: string) returns (replies: seq<Reply>)
      ensures replies == [Scope(1, 2)]
    {
      replies := [Scope(1, 2)];
    }

    /** `findToken` without the stub. A cached token is answered from the
        cache with no query. Otherwise the table is queried once: a database
        error is thrown inside the query callback, so the callback `cb` is
        never called; a live row is written to the cache and returned; no
        live row gives null. `writeError` is whether writeFileSync throws when
        the row is cached (the file name cannot be created, as for a token
        holding `/` or NUL or one too long for a file name); the throw comes
        before `cb`, so there is no reply and nothing is cached. */
    method FindTokenIntended(token: string, dbError: bool, writeError: bool) returns (replies: seq<Reply>)
      requires Valid()
      modifies this`cache, this`queries
      ensures Valid()
      ensures token in old(cache) ==>
                replies == [TokenRow(old(cache)[token])] && cache == old(cache) && queries == old(queries)
      ensures token !in old(cache) ==> queries == old(queries) + 1
      ensures token !in old(cache) && dbError ==> replies == [] && cache == old(cache)
      ensures token !in old(cache) && !dbError && Query(table, token) != [] && writeError ==>
                replies == [] && cache == old(cache)
      ensures token !in old(cache) && !dbError && Query(table, token) != [] && !writeError ==>
                replies == [TokenRow(Query(table, token)[0])] &&
                cache == old(cache)[token := Query(table, token)[0]]
      ensures token !in old(cache) && !dbError && Query(table, token) == [] ==>
                replies == [NoToken] && cache == old(cache)
    {
      if token in cache {
        return [TokenRow(cache[token])];
      }
      queries := queries + 1;
      if dbError {
        return [];
      }
      var results := Query(table, token);
      if |results| > 0 {
        if writeError {
          return [];
        }
        cache := cache[token := results[0]];
        replies := [TokenRow(results[0])];
      } else {
        replies := [NoToken];
      }
    }

    /** A change made to the `tokens` table by some other program, such as a
        revocation; the cache is not told. */
    method SetTable(rows: seq<Row>)
      requires Valid()
      modifies this`table
      ensures Valid()
      ensures table == rows
    {
      table := rows;
    }
  }

  /** Nothing ever removes a cache file: once a token is cached, whatever
      later happens to the table (a revocation, a deletion), the lookup
      returns the cached row and makes no query. */
  method StaleAfterRevocation(repo: Repository, token: string, rows: seq<Row>, dbError: bool, writeError: bool)
    returns (after: seq<Reply>)
    requires repo.Valid() && token in repo.cache
    modifies repo
    ensures after == [TokenRow(old(repo.cache)[token])]
    ensures repo.queries == old(repo.queries) && repo.cache == old(repo.cache) && repo.table == rows
  {
    repo.SetTable(rows);
    after := repo.FindTokenIntended(token, dbError, writeError);
  }

  /** An uncached token with no live row in the table, a revoked one
      included, is answered null, and nothing is cached for it. */
  method RevocationSeenUncached(repo: Repository, token: string) returns (after: seq<Reply>)
    requires repo.Valid() && token !in repo.cache
    requires forall i :: 0 <= i < |repo.table| ==> !Live(repo.table[i], token)
    modifies repo
    ensures after == [NoToken]
    ensures repo.cache == old(repo.cache) && repo.queries == old(repo.queries) + 1
    ensures repo.table == old(repo.table)
  {
    NoLiveRow(repo.table, token);
    after := repo.FindTokenIntended(token, false, false);
  }
}
