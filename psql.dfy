/**
 * The connection wrapper: a `PSQL` value knows the acting role and the
 * tenant database, refuses session-mutating `SET` statements before they
 * reach the database, and runs each statement on a connection taken from a
 * shared pool, always giving the connection back.
 *
 * The pool and the database are foreign: the pool is a class that counts
 * what was acquired and released and records, in order, what happened on
 * it; what the database answers to a statement, and whether connecting
 * fails, are parameters of each call.
 */
module Psql {
  import opened Js

  const AccessParametersMessage: string :=
    "Incorrect access parameters. If you are accessing via OAuth, please check your tokens are correct. For public users, please ensure your table is published."

  const SetForbiddenMessage: string := "SET command is forbidden"

  /** Where the pool finds the database cluster (`global.settings.db_host` and `db_port`). */
  datatype DbSettings = DbSettings(host: string, port: string)

  /** A constructed wrapper. `userId` and `db` are `null` (`None`) or a string. */
  datatype Connection = Connection(userId: Option<string>, db: Option<string>, conString: string)

  /** The connection string the pool is asked for: `null` parts print as `"null"`. */
  function ConString(userId: Option<string>, db: Option<string>, settings: DbSettings): (r: string)
    ensures r == "tcp://" + NullableText(userId) + "@" + settings.host + ":" + settings.port + "/" + NullableText(db)
    ensures userId.Some? ==> r[..6] == "tcp://" && r[6..6 + |userId.value|] == userId.value
  {
    "tcp://" + NullableText(userId) + "@" + settings.host + ":" + settings.port + "/" + NullableText(db)
  }

  /**
   * `new PSQL(user_id, db)`: refused only when NEITHER argument is a string;
   * one string is enough.
   */
  function NewConnection(userId: Option<string>, db: Option<string>, settings: DbSettings): (r: Result<Connection, JsError>)
    ensures r.Err? <==> userId.None? && db.None?
    ensures r.Err? ==> r.error == JsError(AccessParametersMessage, None)
    ensures r.Ok? ==> r.value.userId == userId && r.value.db == db
    ensures r.Ok? ==> r.value.conString == ConString(userId, db, settings)
  {
    if userId.None? && db.None? then Err(JsError(AccessParametersMessage, None))
    else Ok(Connection(userId, db, ConString(userId, db, settings)))
  }

  /** `sql` matches `/^\s+set\s+/i`: at least one `\s`, the word `set` in any case, at least one `\s`. */
  predicate IsLeadingSet(sql: string) {
    var t := TrimLeadingSpace(sql);
    |t| < |sql| && |t| > 3 && MatchesAt(t, 0, "set") && IsSpace(t[3])
  }

  /** The same pattern read declaratively: some non-empty run of `\s`, then `set`, then `\s`. */
  ghost predicate LeadingSetAt(sql: string, k: int) {
    && 1 <= k && k + 3 < |sql|
    && (forall j :: 0 <= j < k ==> IsSpace(sql[j]))
    && MatchesAt(sql, k, "set") && IsSpace(sql[k + 3])
  }

  lemma IsLeadingSetExact(sql: string)
    ensures IsLeadingSet(sql) <==> exists k :: LeadingSetAt(sql, k)
  {
    if IsLeadingSet(sql) {
      LeadingSetFound(sql);
    }
    if exists k :: LeadingSetAt(sql, k) {
      var k :| LeadingSetAt(sql, k);
      LeadingSetMatched(sql, k);
    }
  }

  lemma LeadingSetFound(sql: string)
    requires IsLeadingSet(sql)
    ensures LeadingSetAt(sql, |sql| - |TrimLeadingSpace(sql)|)
  {
    var t := TrimLeadingSpace(sql);
    var k := |sql| - |t|;
    assert sql[k..k + 3] == t[0..3];
  }

  lemma LeadingSetMatched(sql: string, k: int)
    requires LeadingSetAt(sql, k)
    ensures IsLeadingSet(sql)
  {
    // The `s` of `set` is not white space, so the run of `\s` is exactly what the trim removed.
    WordStartNotSpace(sql, k, "set");
    TrimmedAt(sql, k);
    var t := TrimLeadingSpace(sql);
    assert t[0..3] == sql[k..k + 3];
    assert t[3] == sql[k + 3];
  }

  /** `me.sanitize`: a leading `SET` after white space is refused with 403, everything else passes. */
  function Sanitize(sql: string): (r: Option<JsError>)
    ensures r.Some? <==> IsLeadingSet(sql)
    ensures r.Some? ==> r.value == JsError(SetForbiddenMessage, Some(403))
  {
    if IsLeadingSet(sql) then Some(JsError(SetForbiddenMessage, Some(403))) else None
  }

  /** A statement that does not start with white space is never refused, an unindented `SET` included. */
  lemma UnindentedPasses(sql: string)
    requires sql != [] && !IsSpace(sql[0])
    ensures Sanitize(sql) == None
  {
  }

  /** One white-space character, the word `set` in any case, another white-space character: refused. */
  lemma {:induction false} IndentedSetRefused(ws: char, word: string, rest: string)
    requires IsSpace(ws) && |word| == 3 && Lower(word) == "set"
    requires rest != [] && IsSpace(rest[0])
    ensures Sanitize([ws] + word + rest) == Some(JsError(SetForbiddenMessage, Some(403)))
  {
    var sql := [ws] + word + rest;
    var t := word + rest;
    assert TrimLeadingSpace(sql) == t by {
      assert sql[1..] == t;
      assert !IsSpace(t[0]) by { assert t[0] == word[0]; assert LowerChar(word[0]) == 's'; }
    }
    assert MatchesAt(t, 0, "set") by { assert t[0..3] == word; }
    assert IsSpace(t[3]) by { assert t[3] == rest[0]; }
    assert IsLeadingSet(sql);
  }

  // ---------------------------------------------------------------------------
  // The pool and the per-query lifecycle

  /** What happened on the pool, in order. `Release(discard)` is `done(discard)`. */
  datatype PoolEvent = Acquire(conString: string) | Run(sql: string) | Release(discard: bool)

  /** A query started by `EventedQuery`: its rows arrive as events until `end`. */
  datatype QueryHandle = QueryHandle(conString: string, sql: string)

  /** A snapshot of a pool's counters and log. */
  datatype PoolState = PoolState(inUse: nat, acquired: nat, released: nat, streaming: nat, log: seq<PoolEvent>)

  /** The pool after one `query` that got a client: it was acquired, ran `sql` and was given back. */
  function AfterQuery(s: PoolState, conString: string, sql: string): PoolState {
    s.(acquired := s.acquired + 1, released := s.released + 1,
       log := s.log + [Acquire(conString), Run(sql), Release(false)])
  }

  /** The driver's connection pool (`pg`), reduced to the acquire/run/release contract. */
  class Pool {
    var inUse: nat
    var acquired: nat
    var released: nat
    /** Connections held by evented queries whose `end` event has not come yet. */
    var streaming: nat
    var log: seq<PoolEvent>

    /** Every connection handed out is either given back or still held. */
    ghost predicate Valid()
      reads this
    {
      acquired == released + inUse && streaming <= inUse
    }

    /** The counters and the log, as one value. */
    function State(): PoolState
      reads this
    {
      PoolState(inUse, acquired, released, streaming, log)
    }

    constructor ()
      ensures Valid()
      ensures inUse == acquired == released == streaming == 0 && log == []
    {
      inUse, acquired, released, streaming, log := 0, 0, 0, 0, [];
    }

    /** `pg.connect(conString, ...)` that succeeded: a client is handed out. */
    method Acquire(conString: string)
      requires Valid()
      modifies this
      ensures Valid()
      ensures inUse == old(inUse) + 1 && acquired == old(acquired) + 1
      ensures released == old(released) && streaming == old(streaming)
      ensures log == old(log) + [PoolEvent.Acquire(conString)]
    {
      inUse, acquired := inUse + 1, acquired + 1;
      log := log + [PoolEvent.Acquire(conString)];
    }

    /** `client.query(sql, ...)` on a client that is held. */
    method Run(sql: string)
      requires Valid()
      modifies this
      ensures Valid()
      ensures inUse == old(inUse) && acquired == old(acquired)
      ensures released == old(released) && streaming == old(streaming)
      ensures log == old(log) + [PoolEvent.Run(sql)]
    {
      log := log + [PoolEvent.Run(sql)];
    }

    /** `done(discard)`: the client goes back to the pool, or is dropped when `discard`. */
    method Release(discard: bool)
      requires Valid() && inUse > streaming
      modifies this
      ensures Valid()
      ensures inUse == old(inUse) - 1 && released == old(released) + 1
      ensures acquired == old(acquired) && streaming == old(streaming)
      ensures log == old(log) + [PoolEvent.Release(discard)]
    {
      inUse, released := inUse - 1, released + 1;
      log := log + [PoolEvent.Release(discard)];
    }
  }

  /**
   * `me.query(sql, callback)`: sanitize, connect, run, release, call back.
   * `connectError` is what `pg.connect` reports and `answer` what the
   * database answers; the returned value is what the callback receives.
   * A refused statement never reaches the pool; a failed connection is never
   * released; an acquired one is released exactly once, with `done()`, so
   * it stays pooled; and the answer, row set or error, is passed on
   * unchanged, with no retry.
   */
  method Query<T>(conn: Connection, pool: Pool, sql: string, connectError: Option<JsError>, answer: Result<T, JsError>)
    returns (r: Result<T, JsError>)
    requires pool.Valid()
    modifies pool
    ensures pool.Valid()
    ensures Sanitize(sql).Some? ==> r == Err(Sanitize(sql).value) && unchanged(pool)
    ensures Sanitize(sql).None? && connectError.Some? ==> r == Err(connectError.value) && unchanged(pool)
    ensures Sanitize(sql).None? && connectError.None? ==>
      && r == answer
      && pool.log == old(pool.log) + [Acquire(conn.conString), Run(sql), Release(false)]
      && pool.acquired == old(pool.acquired) + 1 && pool.released == old(pool.released) + 1
      && pool.inUse == old(pool.inUse) && pool.streaming == old(pool.streaming)
  {
    var refused := Sanitize(sql);
    if refused.Some? {
      // The error is passed down the remaining steps; no client was taken.
      r := Err(refused.value);
    } else {
      r := ConnectAndRun(conn.conString, pool, sql, connectError, answer);
    }
  }

  /**
   * The steps of `query` after a clean sanitize: connect, keep `done` in
   * `finish`, run, and, in the last step, call `finish` only if it was set.
   */
  method ConnectAndRun<T>(conString: string, pool: Pool, sql: string, connectError: Option<JsError>, answer: Result<T, JsError>)
    returns (r: Result<T, JsError>)
    requires pool.Valid()
    modifies pool
    ensures pool.Valid()
    ensures connectError.Some? ==> r == Err(connectError.value) && unchanged(pool)
    ensures connectError.None? ==>
      && r == answer
      && pool.log == old(pool.log) + [Acquire(conString), Run(sql), Release(false)]
      && pool.acquired == old(pool.acquired) + 1 && pool.released == old(pool.released) + 1
      && pool.inUse == old(pool.inUse) && pool.streaming == old(pool.streaming)
  {
    var finish := false;
    var outcome: Result<T, JsError>;
    if connectError.Some? {
      outcome := Err(connectError.value);
    } else {
      pool.Acquire(conString);
      finish := true;
      pool.Run(sql);
      outcome := answer;
    }
    // Release the client to the pool before calling back.
    if finish {
      pool.Release(false);
    }
    r := outcome;
  }

  /**
   * `me.eventedQuery(sql, callback)`: sanitize, connect, start the query and
   * hand it to the callback; the connection stays held until the query's
   * `end` event (`EndEvent`).
   */
  method EventedQuery(conn: Connection, pool: Pool, sql: string, connectError: Option<JsError>)
    returns (r: Result<QueryHandle, JsError>)
    requires pool.Valid()
    modifies pool
    ensures pool.Valid()
    ensures Sanitize(sql).Some? ==> r == Err(Sanitize(sql).value) && unchanged(pool)
    ensures Sanitize(sql).None? && connectError.Some? ==> r == Err(connectError.value) && unchanged(pool)
    ensures Sanitize(sql).None? && connectError.None? ==>
      && r == Ok(QueryHandle(conn.conString, sql))
      && pool.log == old(pool.log) + [Acquire(conn.conString), Run(sql)]
      && pool.inUse == old(pool.inUse) + 1 && pool.acquired == old(pool.acquired) + 1
      && pool.streaming == old(pool.streaming) + 1 && pool.released == old(pool.released)
  {
    var refused := Sanitize(sql);
    if refused.Some? {
      r := Err(refused.value);
    } else {
      r := ConnectAndStart(conn.conString, pool, sql, connectError);
    }
  }

  /** The steps of `eventedQuery` after a clean sanitize: connect and start the query, keeping the client. */
  method ConnectAndStart(conString: string, pool: Pool, sql: string, connectError: Option<JsError>)
    returns (r: Result<QueryHandle, JsError>)
    requires pool.Valid()
    modifies pool
    ensures pool.Valid()
    ensures connectError.Some? ==> r == Err(connectError.value) && unchanged(pool)
    ensures connectError.None? ==>
      && r == Ok(QueryHandle(conString, sql))
      && pool.log == old(pool.log) + [Acquire(conString), Run(sql)]
      && pool.inUse == old(pool.inUse) + 1 && pool.acquired == old(pool.acquired) + 1
      && pool.streaming == old(pool.streaming) + 1 && pool.released == old(pool.released)
  {
    if connectError.Some? {
      r := Err(connectError.value);
    } else {
      pool.Acquire(conString);
      pool.Run(sql);
      // The client stays held until the query's `end` event.
      pool.streaming := pool.streaming + 1;
      r := Ok(QueryHandle(conString, sql));
    }
  }

  /** The `end` event of an evented query: `done()` gives its client back to the pool. */
  method EndEvent(pool: Pool, h: QueryHandle)
    requires pool.Valid() && pool.streaming > 0
    modifies pool
    ensures pool.Valid()
    ensures pool.inUse == old(pool.inUse) - 1 && pool.released == old(pool.released) + 1
    ensures pool.streaming == old(pool.streaming) - 1 && pool.acquired == old(pool.acquired)
    ensures pool.log == old(pool.log) + [Release(false)]
  {
    pool.streaming := pool.streaming - 1;
    pool.Release(false);
  }
}
