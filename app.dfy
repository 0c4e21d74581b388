/**
 * The request pipeline of the SQL gateway: how a request's parameters are
 * defaulted and normalised, which statements may write, how the table list
 * a statement touches is cached and checked against system tables, how the
 * cache channel and content disposition headers are chosen, how an error
 * becomes a response, and the order in which one request goes through all
 * of it.
 *
 * The statement fingerprint (an MD5 digest in the source) is an arbitrary
 * function `fingerprint: string -> K` given to the pipeline; the wall clock
 * is a `now` parameter; the formats registry is the set of format names it
 * knows.
 */
module App {
  import opened Js
  import Psql
  import Binary

  // ---------------------------------------------------------------------------
  // queryMayWrite: /(alter|insert|update|delete|create|drop|truncate)/i

  const WriteKeywords: seq<string> := ["alter", "insert", "update", "delete", "create", "drop", "truncate"]

  /** One of the keywords from the `k`-th on occurs, in any case, at index `i`. */
  predicate KeywordAt(sql: string, i: nat, k: nat)
    requires k <= |WriteKeywords|
    decreases |WriteKeywords| - k
  {
    k < |WriteKeywords| && (MatchesAt(sql, i, WriteKeywords[k]) || KeywordAt(sql, i, k + 1))
  }

  /** A keyword occurs at some index from `i` on: the regular expression's scan. */
  predicate MayWriteFrom(sql: string, i: nat)
    decreases |sql| - i
  {
    i <= |sql| && (KeywordAt(sql, i, 0) || MayWriteFrom(sql, i + 1))
  }

  /** `queryMayWrite(sql)`. */
  predicate QueryMayWrite(sql: string) {
    MayWriteFrom(sql, 0)
  }

  /** The heuristic's meaning: some write keyword occurs in `sql` as a plain, case-insensitive substring. */
  ghost predicate MentionsWriteKeyword(sql: string) {
    exists i, k :: 0 <= i <= |sql| && 0 <= k < |WriteKeywords| && MatchesAt(sql, i, WriteKeywords[k])
  }

  /** Some write keyword occurs at an index from `i` on. */
  ghost predicate WriteKeywordFrom(sql: string, i: nat) {
    exists j, k :: i <= j <= |sql| && 0 <= k < |WriteKeywords| && MatchesAt(sql, j, WriteKeywords[k])
  }

  lemma {:induction false} KeywordAtExact(sql: string, i: nat, k: nat)
    requires k <= |WriteKeywords|
    ensures KeywordAt(sql, i, k) <==> exists k' :: k <= k' < |WriteKeywords| && MatchesAt(sql, i, WriteKeywords[k'])
    decreases |WriteKeywords| - k
  {
    if k < |WriteKeywords| {
      KeywordAtExact(sql, i, k + 1);
    }
  }

  lemma {:induction false} MayWriteFromExact(sql: string, i: nat)
    ensures MayWriteFrom(sql, i) <==> WriteKeywordFrom(sql, i)
    decreases |sql| - i
  {
    if i <= |sql| {
      KeywordAtExact(sql, i, 0);
      MayWriteFromExact(sql, i + 1);
      if KeywordAt(sql, i, 0) {
        var k :| 0 <= k < |WriteKeywords| && MatchesAt(sql, i, WriteKeywords[k]);
        assert WriteKeywordFrom(sql, i);
      } else if MayWriteFrom(sql, i + 1) {
        var j, k :| i + 1 <= j <= |sql| && 0 <= k < |WriteKeywords| && MatchesAt(sql, j, WriteKeywords[k]);
        assert WriteKeywordFrom(sql, i);
      }
      if WriteKeywordFrom(sql, i) {
        var j, k :| i <= j <= |sql| && 0 <= k < |WriteKeywords| && MatchesAt(sql, j, WriteKeywords[k]);
        if j == i {
          assert KeywordAt(sql, i, 0);
        } else {
          assert WriteKeywordFrom(sql, i + 1);
        }
      }
    }
  }

  /** `queryMayWrite` is true exactly when a write keyword occurs, in any case, anywhere in `sql`. */
  lemma QueryMayWriteExact(sql: string)
    ensures QueryMayWrite(sql) <==> MentionsWriteKeyword(sql)
  {
    MayWriteFromExact(sql, 0);
  }

  /** The heuristic errs on the side of writing: a column named `created_at` makes a SELECT "write". */
  lemma CreatedAtCountsAsWrite()
    ensures QueryMayWrite("SELECT created_at FROM t")
  {
    var sql := "SELECT created_at FROM t";
    assert MatchesAt(sql, 7, WriteKeywords[4]) by {
      var w := sql[7..13];
      assert w[0] == 'c' && w[1] == 'r' && w[2] == 'e' && w[3] == 'a' && w[4] == 't' && w[5] == 'e';
      assert Lower(w) == "create";
    }
    QueryMayWriteExact(sql);
  }

  // ---------------------------------------------------------------------------
  // sanitize_filename

  /** The characters `[;()\[\]<>'"\s]` that `sanitize_filename` replaces with `_`. */
  predicate IsUnsafeFilenameChar(c: char) {
    || c == ';' || c == '(' || c == ')' || c == '[' || c == ']'
    || c == '<' || c == '>' || c == '\'' || c == '"' || IsSpace(c)
  }

  /** `filename.replace(/[;()\[\]<>'"\s]/g, '_')`. */
  function ReplaceUnsafe(s: string): (r: string)
    ensures |r| == |s|
    ensures forall i :: 0 <= i < |s| ==> r[i] == if IsUnsafeFilenameChar(s[i]) then '_' else s[i]
  {
    if s == [] then [] else [if IsUnsafeFilenameChar(s[0]) then '_' else s[0]] + ReplaceUnsafe(s[1..])
  }

  /** No replaced name holds a character of the class. */
  lemma ReplaceUnsafeIsSafe(s: string)
    ensures forall i :: 0 <= i < |ReplaceUnsafe(s)| ==> !IsUnsafeFilenameChar(ReplaceUnsafe(s)[i])
  {
  }

  /** Replacing twice is replacing once. */
  lemma {:induction false} ReplaceUnsafeIdempotent(s: string)
    ensures ReplaceUnsafe(ReplaceUnsafe(s)) == ReplaceUnsafe(s)
  {
    var r := ReplaceUnsafe(s);
    var rr := ReplaceUnsafe(r);
    forall i | 0 <= i < |r| ensures rr[i] == r[i] {
      ReplaceUnsafeIsSafe(s);
    }
  }

  /** `path.basename`, read as the text after the last `/`. */
  function LastSegment(p: string): (r: string)
    ensures '/' !in r
    ensures |r| <= |p| && r == p[|p| - |r|..]
    ensures |r| < |p| ==> p[|p| - |r| - 1] == '/'
  {
    if p == [] || p[|p| - 1] == '/' then [] else LastSegment(p[..|p| - 1]) + [p[|p| - 1]]
  }

  /** The index of the last `.` in `s`, if any. */
  function LastDot(s: string): (r: Option<nat>)
    ensures r.Some? ==> r.value < |s| && s[r.value] == '.' && '.' !in s[r.value + 1..]
    ensures r.None? ==> '.' !in s
  {
    if s == [] then None
    else if s[|s| - 1] == '.' then Some(|s| - 1)
    else
      var r := LastDot(s[..|s| - 1]);
      assert s == s[..|s| - 1] + [s[|s| - 1]];
      r
  }

  /** `path.basename(f, path.extname(f))` on a last segment: the text from its last `.` goes, unless that `.` leads. */
  function StripExtension(base: string): (r: string)
    ensures |r| <= |base| && r == base[..|r|]
    ensures LastDot(base).Some? && LastDot(base).value > 0 ==> r == base[..LastDot(base).value]
    ensures !(LastDot(base).Some? && LastDot(base).value > 0) ==> r == base
  {
    var d := LastDot(base);
    if d.Some? && d.value > 0 then base[..d.value] else base
  }

  /** `sanitize_filename(filename)`. */
  function SanitizeFilename(f: string): (r: string)
    ensures r == ReplaceUnsafe(StripExtension(LastSegment(f)))
    ensures forall i :: 0 <= i < |r| ==> !IsUnsafeFilenameChar(r[i]) && r[i] != '/'
  {
    var base := LastSegment(f);
    var stem := StripExtension(base);
    assert forall i :: 0 <= i < |stem| ==> stem[i] == base[i];
    ReplaceUnsafeIsSafe(stem);
    ReplaceUnsafe(stem)
  }

  // ---------------------------------------------------------------------------
  // window_sql

  /** `sql` matches `/^\s*SELECT\s/i`. */
  predicate LooksLikeSelect(sql: string) {
    var t := TrimLeadingSpace(sql);
    |t| > 6 && MatchesAt(t, 0, "select") && IsSpace(t[6])
  }

  /** The same pattern read declaratively: white space up to `k`, then `select` and one `\s`. */
  ghost predicate SelectAt(sql: string, k: int) {
    && 0 <= k && k + 6 < |sql|
    && (forall j :: 0 <= j < k ==> IsSpace(sql[j]))
    && MatchesAt(sql, k, "select") && IsSpace(sql[k + 6])
  }

  lemma LooksLikeSelectExact(sql: string)
    ensures LooksLikeSelect(sql) <==> exists k :: SelectAt(sql, k)
  {
    if LooksLikeSelect(sql) {
      SelectFound(sql);
    }
    if exists k :: SelectAt(sql, k) {
      var k :| SelectAt(sql, k);
      SelectMatched(sql, k);
    }
  }

  lemma SelectFound(sql: string)
    requires LooksLikeSelect(sql)
    ensures SelectAt(sql, |sql| - |TrimLeadingSpace(sql)|)
  {
    var t := TrimLeadingSpace(sql);
    var k := |sql| - |t|;
    assert sql[k..k + 6] == t[0..6];
  }

  lemma SelectMatched(sql: string, k: int)
    requires SelectAt(sql, k)
    ensures LooksLikeSelect(sql)
  {
    WordStartNotSpace(sql, k, "select");
    TrimmedAt(sql, k);
    assert TrimLeadingSpace(sql)[0..6] == sql[k..k + 6];
  }

  /** What follows the wrapped statement. */
  function WindowTail(limit: int, offset: int): (r: string)
    ensures r == ") AS cdbq_1 LIMIT " + IntToString(limit) + " OFFSET " + IntToString(offset)
  {
    ") AS cdbq_1 LIMIT " + IntToString(limit) + " OFFSET " + IntToString(offset)
  }

  /** `window_sql(sql, limit, offset)`: `None` is a limit or offset that is not a number. */
  function WindowSql(sql: string, limit: Option<int>, offset: Option<int>): (r: string)
    ensures limit.Some? && offset.Some? && LooksLikeSelect(sql) ==>
      r == "SELECT * FROM (" + sql + WindowTail(limit.value, offset.value)
    ensures !(limit.Some? && offset.Some? && LooksLikeSelect(sql)) ==> r == sql
  {
    if limit.Some? && offset.Some? && LooksLikeSelect(sql) then
      "SELECT * FROM (" + sql + WindowTail(limit.value, offset.value)
    else sql
  }

  /** A windowed statement still holds the original text, and is itself a SELECT. */
  lemma WindowedKeepsStatement(sql: string, limit: int, offset: int)
    requires LooksLikeSelect(sql)
    ensures var r := WindowSql(sql, Some(limit), Some(offset));
      |r| > 15 + |sql| && r[15..15 + |sql|] == sql && LooksLikeSelect(r)
  {
    var head := "SELECT * FROM (";
    var tail := WindowTail(limit, offset);
    Infix(head, sql, tail);
    SelectLeaderLooksLikeSelect(head + sql + tail);
  }

  /** The parts of `a + b + c` are where they were put. */
  lemma Infix(a: string, b: string, c: string)
    ensures (a + b + c)[|a|..|a| + |b|] == b
    ensures |a + b + c| == |a| + |b| + |c| && (a + b + c)[..|a|] == a
  {
  }

  /** Text that starts with the window's head matches the pattern. */
  lemma SelectLeaderLooksLikeSelect(r: string)
    requires |r| > 15 && r[..15] == "SELECT * FROM ("
    ensures LooksLikeSelect(r)
  {
    assert r[0] == 'S' && r[6] == ' ';
    assert TrimLeadingSpace(r) == r;
    assert r[0..6] == r[..15][0..6];
  }

  /** A statement led by something other than `SELECT` (a `WITH`, `VALUES`, ...) is never windowed. */
  lemma {:induction false} OtherLeadersNotWindowed(sql: string, limit: Option<int>, offset: Option<int>)
    requires sql != [] && !IsSpace(sql[0]) && LowerChar(sql[0]) != 's'
    ensures WindowSql(sql, limit, offset) == sql
  {
    assert TrimLeadingSpace(sql) == sql;
  }

  // ---------------------------------------------------------------------------
  // Input normalisation in handleQuery

  /** A request parameter as the body and query parsers give it: absent, one string, or repeated. */
  datatype Param = Absent | Text(s: string) | Many(items: seq<string>)

  /** JavaScript truthiness of a parameter: a non-empty string, or any array. */
  predicate Truthy(p: Param) {
    p.Many? || (p.Text? && p.s != "")
  }

  /** `query || body` for a parameter. */
  function Either(query: Param, body: Param): (r: Param)
    ensures Truthy(query) ==> r == query
    ensures !Truthy(query) ==> r == body
  {
    if Truthy(query) then query else body
  }

  predicate TruthyText(s: Option<string>) {
    s.Some? && s.value != ""
  }

  /** `query || body` for a parameter that is a string when present. */
  function EitherText(query: Option<string>, body: Option<string>): (r: Option<string>)
    ensures TruthyText(query) ==> r == query
    ensures !TruthyText(query) ==> r == body
  {
    if TruthyText(query) then query else body
  }

  /** `(x === "" || _.isUndefined(x)) ? null : x`. */
  function NullIfEmpty(s: Option<string>): (r: Option<string>)
    ensures r.Some? <==> TruthyText(s)
    ensures r.Some? ==> r == s
  {
    if TruthyText(s) then s else None
  }

  /** The parameters of a request; the `body...` ones come from a POST body (absent on a GET). */
  datatype Request = Request(
    q: Param, bodyQ: Param,
    format: Param, bodyFormat: Param,
    filename: Option<string>, bodyFilename: Option<string>,
    skipfields: Param, bodySkipfields: Param,
    dp: Option<string>, bodyDp: Option<string>,
    database: Option<string>,
    userId: Option<string>,
    rowsPerPage: Option<string>,
    page: Option<string>,
    cachePolicy: Option<string>)

  /** A request after defaulting: what the rest of the pipeline uses. */
  datatype Params = Params(
    sql: string,
    format: string,
    filename: string,
    dp: string,
    database: Option<string>,
    userId: Option<string>,
    limit: Option<int>,
    offset: Option<int>,
    skipfields: seq<string>,
    inline: bool,
    persist: bool)

  const NoSqlMessage: string := "You must indicate a sql query"
  const DefaultFilename: string := "cartodb-query"

  function RequestedFormat(req: Request): Param {
    Either(req.format, req.bodyFormat)
  }

  /** The format asked for; `_.last` of a repeated parameter, so the last value wins. */
  function PickedFormat(req: Request): (r: Option<string>)
    ensures RequestedFormat(req).Many? && RequestedFormat(req).items != [] ==>
      r == Some(RequestedFormat(req).items[|RequestedFormat(req).items| - 1])
  {
    match RequestedFormat(req)
    case Absent => None
    case Text(s) => Some(s)
    case Many(xs) => if xs == [] then None else Some(xs[|xs| - 1])
  }

  /** The format name: `json` when none (or an empty one) was asked for, otherwise lower-cased. */
  function FormatName(req: Request): (r: string)
    ensures !TruthyText(PickedFormat(req)) ==> r == "json"
    ensures TruthyText(PickedFormat(req)) ==> r == Lower(PickedFormat(req).value)
  {
    var f := PickedFormat(req);
    if f.None? || f.value == "" then "json" else Lower(f.value)
  }

  function FilenameOf(req: Request): (r: string)
    ensures !TruthyText(EitherText(req.filename, req.bodyFilename)) ==> r == DefaultFilename
    ensures TruthyText(EitherText(req.filename, req.bodyFilename)) ==>
      r == SanitizeFilename(EitherText(req.filename, req.bodyFilename).value)
  {
    var f := EitherText(req.filename, req.bodyFilename);
    if f.None? || f.value == "" then DefaultFilename else SanitizeFilename(f.value)
  }

  /** The statement, when one was given as a non-empty string. */
  function SqlOf(req: Request): (r: Option<string>)
    ensures r.Some? <==> Either(req.q, req.bodyQ).Text? && Either(req.q, req.bodyQ).s != ""
    ensures r.Some? ==> r.value == Either(req.q, req.bodyQ).s
  {
    match Either(req.q, req.bodyQ)
    case Text(s) => if s == "" then None else Some(s)
    case _ => None
  }

  /** Decimal precision, `"6"` by default. */
  function DpOf(req: Request): (r: string)
    ensures !TruthyText(EitherText(req.dp, req.bodyDp)) ==> r == "6"
    ensures TruthyText(EitherText(req.dp, req.bodyDp)) ==> r == EitherText(req.dp, req.bodyDp).value
  {
    var d := EitherText(req.dp, req.bodyDp);
    if d.None? || d.value == "" then "6" else d.value
  }

  function LimitOf(req: Request): Option<int> {
    ParseIntParam(req.rowsPerPage)
  }

  /** A row count written out as `"" + n` gives the limit `n`; an absent one gives none. */
  lemma LimitOfRendered(req: Request, n: int)
    ensures req.rowsPerPage.None? ==> LimitOf(req).None?
    ensures req.rowsPerPage == Some(IntToString(n)) ==> LimitOf(req) == Some(n)
  {
    if req.rowsPerPage == Some(IntToString(n)) {
      ParseIntString(n);
    }
  }

  /** `page * limit`; a limit that is not a number is `null` here, which multiplies as 0. */
  function OffsetOf(req: Request): (r: Option<int>)
    ensures r.Some? <==> ParseIntParam(req.page).Some?
    ensures r.Some? && LimitOf(req).Some? ==> r.value == ParseIntParam(req.page).value * LimitOf(req).value
    ensures r.Some? && LimitOf(req).None? ==> r.value == 0
  {
    var page := ParseIntParam(req.page);
    var limit := LimitOf(req);
    if page.Some? then Some(page.value * (if limit.Some? then limit.value else 0)) else None
  }

  /** Page `k` of `n` rows, both written out as numbers, starts at row `k * n`. */
  lemma OffsetOfRendered(req: Request, n: int, k: int)
    requires req.rowsPerPage == Some(IntToString(n)) && req.page == Some(IntToString(k))
    ensures LimitOf(req) == Some(n) && OffsetOf(req) == Some(k * n)
  {
    LimitOfRendered(req, n);
    ParseIntString(k);
  }

  /** The pieces of every element of `xs`, split on `,`, in order. */
  function SplitAll(xs: seq<string>): (r: seq<string>)
  {
    if xs == [] then [] else SplitAll(xs[..|xs| - 1]) + Split(xs[|xs| - 1], ',')
  }

  /** No field name of a flattened list holds a comma. */
  lemma {:induction false} SplitAllPieces(xs: seq<string>)
    ensures forall k :: 0 <= k < |SplitAll(xs)| ==> ',' !in SplitAll(xs)[k]
  {
    if xs != [] {
      SplitAllPieces(xs[..|xs| - 1]);
      SplitPieces(xs[|xs| - 1], ',');
    }
  }

  /** Repeating a parameter is the same as giving its values joined by commas. */
  lemma {:induction false} SplitAllJoined(xs: seq<string>)
    requires |xs| >= 1
    ensures SplitAll(xs) == Split(Join(xs, ','), ',')
    decreases |xs|
  {
    if |xs| == 1 {
      assert xs[..0] == [];
    } else {
      var init := xs[..|xs| - 1];
      assert xs == init + [xs[|xs| - 1]];
      SplitAllJoined(init);
      JoinSnoc(init, xs[|xs| - 1], ',');
      SplitAppend(Join(init, ','), xs[|xs| - 1], ',');
    }
  }

  lemma {:induction false} JoinSnoc(xs: seq<string>, x: string, sep: char)
    requires |xs| >= 1
    ensures Join(xs + [x], sep) == Join(xs, sep) + [sep] + x
    decreases |xs|
  {
    if |xs| == 1 {
      assert (xs + [x])[1..] == [x];
    } else {
      assert (xs + [x])[1..] == xs[1..] + [x];
      JoinSnoc(xs[1..], x, sep);
    }
  }

  /** `skipfields`: split on `,`, every value of a repeated parameter in turn; `[]` when absent or empty. */
  function SkipfieldsOf(req: Request): (r: seq<string>)
    ensures !Truthy(Either(req.skipfields, req.bodySkipfields)) ==> r == []
  {
    match Either(req.skipfields, req.bodySkipfields)
    case Absent => []
    case Text(s) => if s == "" then [] else Split(s, ',')
    case Many(xs) => SplitAll(xs)
  }

  /** Inline disposition only when neither a format nor a filename was asked for. */
  function InlineOf(req: Request): bool {
    !Truthy(RequestedFormat(req)) && !TruthyText(EitherText(req.filename, req.bodyFilename))
  }

  /**
   * The response is inline exactly when neither the query string nor the
   * body asks for a format or a filename, and then it is the default JSON
   * under the default name.
   */
  lemma InlineMeansDefaults(req: Request)
    ensures InlineOf(req) <==>
      !Truthy(req.format) && !Truthy(req.bodyFormat) && !TruthyText(req.filename) && !TruthyText(req.bodyFilename)
    ensures InlineOf(req) ==> FormatName(req) == "json" && FilenameOf(req) == DefaultFilename
  {
  }

  /** What the defaulting step of `handleQuery` yields, or the error it throws. */
  function Normalized(req: Request, formats: set<string>): (r: Result<Params, JsError>)
    ensures FormatName(req) !in formats ==> r == Err(JsError("Invalid format: " + FormatName(req), None))
    ensures FormatName(req) in formats && SqlOf(req).None? ==> r == Err(JsError(NoSqlMessage, None))
    ensures FormatName(req) in formats && SqlOf(req).Some? ==> r.Ok?
    ensures r.Ok? ==> FormatName(req) in formats && SqlOf(req) == Some(r.value.sql)
    ensures r.Ok? ==>
      && r.value.format == FormatName(req) && r.value.filename == FilenameOf(req) && r.value.dp == DpOf(req)
      && r.value.limit == LimitOf(req) && r.value.offset == OffsetOf(req)
      && r.value.skipfields == SkipfieldsOf(req) && r.value.inline == InlineOf(req)
      && r.value.database == NullIfEmpty(req.database) && r.value.userId == NullIfEmpty(req.userId)
      && r.value.persist == (req.cachePolicy == Some("persist"))
  {
    if FormatName(req) !in formats then Err(JsError("Invalid format: " + FormatName(req), None))
    else if SqlOf(req).None? then Err(JsError(NoSqlMessage, None))
    else Ok(Params(
      SqlOf(req).value, FormatName(req), FilenameOf(req), DpOf(req),
      NullIfEmpty(req.database), NullIfEmpty(req.userId),
      LimitOf(req), OffsetOf(req), SkipfieldsOf(req), InlineOf(req),
      req.cachePolicy == Some("persist")))
  }

  /**
   * The defaulting step of `handleQuery`: every parameter taken from the
   * query string or else the body and given its default, then the format
   * checked against the registry before the statement's presence.
   */
  method NormalizeInput(req: Request, formats: set<string>) returns (r: Result<Params, JsError>)
    ensures r == Normalized(req, formats)
  {
    var format := FormatName(req);
    var sql := SqlOf(req);
    var skipfields := CollectSkipfields(Either(req.skipfields, req.bodySkipfields));
    if format !in formats {
      return Err(JsError("Invalid format: " + format, None));
    }
    if sql.None? {
      return Err(JsError(NoSqlMessage, None));
    }
    r := Ok(Params(sql.value, format, FilenameOf(req), DpOf(req),
      NullIfEmpty(req.database), NullIfEmpty(req.userId),
      LimitOf(req), OffsetOf(req), skipfields, InlineOf(req),
      req.cachePolicy == Some("persist")));
  }

  /** The `skipfields` step: split a string on `,`, or `concat` the pieces of every value of a repeated parameter. */
  method CollectSkipfields(requested: Param) returns (skipfields: seq<string>)
    ensures requested.Text? && requested.s != "" ==> skipfields == Split(requested.s, ',')
    ensures requested.Many? ==> skipfields == SplitAll(requested.items)
    ensures !Truthy(requested) ==> skipfields == []
  {
    skipfields := [];
    if Truthy(requested) {
      match requested {
        case Text(s) =>
          skipfields := Split(s, ',');
        case Many(xs) =>
          var i := 0;
          while i < |xs|
            invariant 0 <= i <= |xs|
            invariant skipfields == SplitAll(xs[..i])
          {
            assert xs[..i + 1][..i] == xs[..i];
            skipfields := skipfields + Split(xs[i], ',');
            i := i + 1;
          }
          assert xs[..|xs|] == xs;
      }
    }
  }

  // ---------------------------------------------------------------------------
  // The table list and the system-table guard

  /** What the table cache keeps per statement: the extraction function's raw output, the write flag, the hit counter. */
  datatype Entry = Entry(affectedTables: string, mayWrite: bool, hits: nat)

  predicate NoLineTerminator(s: string) {
    forall k :: 0 <= k < |s| ==> !IsLineTerminator(s[k])
  }

  /** `affected_tables.split(/^\{(.*)\}$/)[1]`: the text between the braces, `None` for `undefined`. */
  function TableList(affected: string): (r: Option<string>)
    ensures r.Some? ==> affected == "{" + r.value + "}" && NoLineTerminator(r.value)
    ensures r.None? ==> forall inner :: affected == "{" + inner + "}" ==> !NoLineTerminator(inner)
  {
    if |affected| >= 2 && affected[0] == '{' && affected[|affected| - 1] == '}' && NoLineTerminator(affected[1..|affected| - 1]) then
      assert affected == "{" + affected[1..|affected| - 1] + "}";
      Some(affected[1..|affected| - 1])
    else
      assert forall inner :: affected == "{" + inner + "}" ==> inner == affected[1..|affected| - 1];
      None
  }

  /** `t.match(/\.?pg_/)`: the optional dot makes it "contains `pg_`". */
  predicate MentionsPg(t: string) {
    exists i :: 0 <= i <= |t| - 3 && PgAt(t, i)
  }

  predicate PgAt(t: string, i: int) {
    0 <= i && i + 3 <= |t| && t[i..i + 3] == "pg_"
  }

  const SystemTablesMessage: string := "system tables are forbidden"
  /** The TypeError thrown when the table list is `undefined`. */
  const UndefinedSplitMessage: string := "Cannot call method 'split' of undefined"

  /** The guard's verdict: `None` lets the request through. */
  function SystemTableError(entry: Option<Entry>): (r: Option<JsError>)
    ensures entry.None? ==> r.None?
  {
    if entry.None? then None
    else
      var list := TableList(entry.value.affectedTables);
      if list.None? then Some(JsError(UndefinedSplitMessage, None))
      else
        var tables := Split(list.value, ',');
        if exists k :: 0 <= k < |tables| && MentionsPg(tables[k]) then Some(JsError(SystemTablesMessage, Some(403)))
        else None
  }

  /**
   * The loop of `handleQuery` over the affected tables: the first name
   * containing `pg_` throws a 403, whatever the other names are; with no
   * cache entry the guard does not run.
   */
  method CheckSystemTables(entry: Option<Entry>) returns (r: Option<JsError>)
    ensures r == SystemTableError(entry)
  {
    if entry.None? {
      return None;
    }
    var list := TableList(entry.value.affectedTables);
    if list.None? {
      return Some(JsError(UndefinedSplitMessage, None));
    }
    var tables := Split(list.value, ',');
    for i := 0 to |tables|
      invariant forall k :: 0 <= k < i ==> !MentionsPg(tables[k])
    {
      if MentionsPg(tables[i]) {
        return Some(JsError(SystemTablesMessage, Some(403)));
      }
    }
    r := None;
  }

  lemma {:induction false} JoinNoLineTerminator(parts: seq<string>)
    requires |parts| >= 1
    requires forall k :: 0 <= k < |parts| ==> NoLineTerminator(parts[k])
    ensures NoLineTerminator(Join(parts, ','))
    decreases |parts|
  {
    if |parts| > 1 {
      JoinNoLineTerminator(parts[1..]);
      var j := Join(parts, ',');
      var rest := Join(parts[1..], ',');
      assert j == parts[0] + [','] + rest;
      forall k | 0 <= k < |j| ensures !IsLineTerminator(j[k]) {
        if k < |parts[0]| {
          assert j[k] == parts[0][k];
        } else if k > |parts[0]| {
          assert j[k] == rest[k - |parts[0]| - 1];
        }
      }
    }
  }

  lemma TableListOf(inner: string)
    requires NoLineTerminator(inner)
    ensures TableList("{" + inner + "}") == Some(inner)
  {
    var a := "{" + inner + "}";
    assert a[1..|a| - 1] == inner;
  }

  /**
   * For the list `{t1,...,tn}` of table names (no commas, no line breaks in
   * them), the guard refuses exactly when some name contains `pg_`, wherever
   * it stands among the others.
   */
  lemma SystemTableErrorOfList(parts: seq<string>, mayWrite: bool, hits: nat)
    requires |parts| >= 1
    requires forall k :: 0 <= k < |parts| ==> ',' !in parts[k] && NoLineTerminator(parts[k])
    ensures SystemTableError(Some(Entry("{" + Join(parts, ',') + "}", mayWrite, hits))) ==
      if exists k :: 0 <= k < |parts| && MentionsPg(parts[k]) then Some(JsError(SystemTablesMessage, Some(403))) else None
  {
    JoinNoLineTerminator(parts);
    TableListOf(Join(parts, ','));
    SplitJoin(parts, ',');
  }

  /** A statement that touches no table (`{}`) passes the guard. */
  lemma NoTablesPass(mayWrite: bool, hits: nat)
    ensures SystemTableError(Some(Entry("{}", mayWrite, hits))) == None
  {
    assert TableList("{}") == Some("");
    assert Split("", ',') == [""];
  }

  // ---------------------------------------------------------------------------
  // Response headers

  /** `generateCacheKey(database, query_info, is_authenticated)`: the X-Cache-Channel value. */
  function GenerateCacheKey(database: Option<string>, entry: Option<Entry>, authenticated: bool): (r: string)
    ensures r == "NONE" <==> entry.None? || (authenticated && entry.value.mayWrite)
    ensures entry.Some? && !(authenticated && entry.value.mayWrite) && TableList(entry.value.affectedTables).Some? ==>
      r == NullableText(database) + ":" + TableList(entry.value.affectedTables).value
  {
    if entry.None? || (authenticated && entry.value.mayWrite) then "NONE"
    else
      var list := TableList(entry.value.affectedTables);
      var r := NullableText(database) + ":" + (if list.Some? then list.value else "undefined");
      assert r[|NullableText(database)|] == ':';
      r
  }

  /** A statement that touches no table gets the channel `"db:"`, even when it writes, for an anonymous caller. */
  lemma CacheKeyOfNoTables(database: string)
    ensures GenerateCacheKey(Some(database), Some(Entry("{}", true, 1)), false) == database + ":"
  {
    TableListOf("");
  }

  /** For an anonymous caller the channel is the database, a colon and the list between the braces, even for a write. */
  lemma CacheKeyOfTables(database: string, inner: string, mayWrite: bool, hits: nat)
    requires NoLineTerminator(inner)
    ensures GenerateCacheKey(Some(database), Some(Entry("{" + inner + "}", mayWrite, hits)), false) == database + ":" + inner
  {
    TableListOf(inner);
  }

  /** The file extension `getContentDisposition` gives a format: `shp` is zipped, anything unlisted is `json`. */
  function Extension(format: string): (r: string)
    ensures format in {"geojson", "topojson", "csv", "svg", "kml"} ==> r == format
    ensures format == "shp" ==> r == "zip"
    ensures format !in {"geojson", "topojson", "csv", "svg", "kml", "shp"} ==> r == "json"
  {
    if format == "geojson" then "geojson"
    else if format == "topojson" then "topojson"
    else if format == "csv" then "csv"
    else if format == "svg" then "svg"
    else if format == "shp" then "zip"
    else if format == "kml" then "kml"
    else "json"
  }

  /** The name the file is saved under: the file name, a dot, the format's extension. */
  function SavedName(format: string, filename: string): (r: string)
    ensures |r| == |filename| + 1 + |Extension(format)|
    ensures r[..|filename|] == filename && r[|filename|] == '.' && r[|filename| + 1..] == Extension(format)
  {
    filename + "." + Extension(format)
  }

  /** The part of the disposition after its type: the saved name and the time. */
  function DispositionParams(format: string, filename: string, time: string): (r: string)
    ensures |r| > 11 + |SavedName(format, filename)|
    ensures r[..11] == "; filename=" && r[11..11 + |SavedName(format, filename)|] == SavedName(format, filename)
    ensures r[11 + |SavedName(format, filename)|..] == "; modification-date=\"" + time + "\";"
  {
    var name := SavedName(format, filename);
    var r := "; filename=" + name + ("; modification-date=\"" + time + "\";");
    assert r[11..11 + |name|] == name;
    r
  }

  /** `getContentDisposition(format, filename, inline)`, with the time of the request passed in. */
  function ContentDisposition(format: string, filename: string, inline: bool, time: string): (r: string)
    ensures |r| > 10
    ensures inline ==> r[..6] == "inline" && r[6..] == DispositionParams(format, filename, time)
    ensures !inline ==> r[..10] == "attachment" && r[10..] == DispositionParams(format, filename, time)
  {
    (if inline then "inline" else "attachment") + DispositionParams(format, filename, time)
  }

  /** The binary format's files go out named `.json`: the extension map does not know `bin`. */
  lemma BinaryFilesNamedJson()
    ensures Extension(Binary.FormatId()) == "json"
  {
  }

  /** What `handleException` sends: the status, the forced disposition and the `{error: [message]}` body. */
  datatype ErrorResponse = ErrorResponse(status: int, disposition: string, errors: seq<string>)

  /** `handleException(err, res)`: the error's own `http_status` if it has one, else 400; always inline. */
  function HandleException(err: JsError): (r: ErrorResponse)
    ensures err.httpStatus.Some? ==> r.status == err.httpStatus.value
    ensures err.httpStatus.None? ==> r.status == 400
    ensures r.disposition == "inline" && r.errors == [err.message]
  {
    ErrorResponse(if err.httpStatus.Some? then err.httpStatus.value else 400, "inline", [err.message])
  }

  // ---------------------------------------------------------------------------
  // The table cache

  /** The sum of the hit counters of the entries of `m`. */
  ghost function TotalHits<K>(m: map<K, Entry>): nat
    decreases |m|
  {
    if m == map[] then 0
    else
      var k :| k in m;
      m[k].hits + TotalHits(m - {k})
  }

  /** The sum does not depend on which entry is taken out first. */
  lemma {:induction false} TotalHitsRemove<K>(m: map<K, Entry>, k: K)
    requires k in m
    ensures TotalHits(m) == m[k].hits + TotalHits(m - {k})
    decreases |m|
  {
    var x :| x in m && TotalHits(m) == m[x].hits + TotalHits(m - {x});
    if x != k {
      assert |m - {x}| < |m| by { assert x in m && x !in m - {x}; assert (m - {x}).Keys < m.Keys; }
      TotalHitsRemove(m - {x}, k);
      assert |m - {k}| < |m| by { assert k in m && k !in m - {k}; assert (m - {k}).Keys < m.Keys; }
      TotalHitsRemove(m - {k}, x);
      assert m - {x} - {k} == m - {k} - {x};
    }
  }

  /** A hit adds exactly one to the total. */
  lemma HitAddsOne<K>(m: map<K, Entry>, k: K)
    requires k in m
    ensures TotalHits(m[k := m[k].(hits := m[k].hits + 1)]) == TotalHits(m) + 1
  {
    var m' := m[k := m[k].(hits := m[k].hits + 1)];
    TotalHitsRemove(m, k);
    TotalHitsRemove(m', k);
    assert m' - {k} == m - {k};
  }

  /** Inserting a fresh entry adds one key and the entry's hits to the totals. */
  lemma InsertAddsEntry<K>(m: map<K, Entry>, k: K, e: Entry)
    requires k !in m
    ensures TotalHits(m[k := e]) == TotalHits(m) + e.hits
    ensures |m[k := e]| == |m| + 1
  {
    TotalHitsRemove(m[k := e], k);
    assert m[k := e] - {k} == m;
  }

  /** The process-wide `tableCache`: statement fingerprint to entry. */
  class TableCache<K(==)> {
    var entries: map<K, Entry>

    /** Every entry was inserted with one hit and only ever counted up. */
    ghost predicate Valid()
      reads this
    {
      forall k :: k in entries ==> entries[k].hits >= 1
    }

    constructor ()
      ensures Valid() && entries == map[]
    {
      entries := map[];
    }

    /** `tableCache.get(key)` followed, on a hit, by `hits++`. */
    method Get(key: K) returns (e: Option<Entry>)
      requires Valid()
      modifies this
      ensures Valid()
      ensures key in old(entries) ==>
        && e == Some(old(entries)[key].(hits := old(entries)[key].hits + 1))
        && entries == old(entries)[key := e.value]
      ensures key !in old(entries) ==> e == None && entries == old(entries)
    {
      if key in entries {
        var item := entries[key];
        item := item.(hits := item.hits + 1);
        entries := entries[key := item];
        e := Some(item);
      } else {
        e := None;
      }
    }

    /**
     * After a miss: an extraction answer of exactly one row is cached with
     * one hit and the write flag of the statement; any other row count
     * caches nothing.
     */
    method RecordExtraction(key: K, sql: string, rowCount: nat, affectedTables: string) returns (e: Option<Entry>)
      requires Valid()
      modifies this
      ensures Valid()
      ensures rowCount == 1 ==>
        e == Some(Entry(affectedTables, QueryMayWrite(sql), 1)) && entries == old(entries)[key := e.value]
      ensures rowCount != 1 ==> e == None && entries == old(entries)
    {
      if rowCount == 1 {
        var item := Entry(affectedTables, QueryMayWrite(sql), 1);
        entries := entries[key := item];
        e := Some(item);
      } else {
        e := None;
      }
    }

    /** `handleCacheStatus`: the sum of the hit counters and the number of keys. */
    method Status() returns (hits: nat, keys: nat)
      requires Valid()
      ensures hits == TotalHits(entries) && keys == |entries|
      ensures hits >= keys
    {
      var rest := entries;
      hits := 0;
      ghost var counted := 0;
      while rest != map[]
        invariant rest.Keys <= entries.Keys
        invariant forall k :: k in rest ==> rest[k] == entries[k]
        invariant hits + TotalHits(rest) == TotalHits(entries)
        invariant counted + |rest| == |entries| && hits >= counted
        decreases |rest|
      {
        var k :| k in rest;
        TotalHitsRemove(rest, k);
        assert |rest - {k}| == |rest| - 1 by { assert (rest - {k}).Keys == rest.Keys - {k}; }
        hits := hits + rest[k].hits;
        counted := counted + 1;
        rest := rest - {k};
      }
      keys := |entries|;
    }
  }

  // ---------------------------------------------------------------------------
  // handleQuery, from parameters to the response plan

  /** What the table-extraction function answered: the row count, and the first row's `cdb_querytables`. */
  datatype Extraction = Extraction(rowCount: nat, queryTables: string)

  /** The statement that asks the database which tables `sql` touches, `sql` dollar-quoted. */
  function ExtractionSql(sql: string): (r: string)
    ensures r == "SELECT CDB_QueryTables($quotesql$" + sql + "$quotesql$)"
    ensures Psql.Sanitize(r).None?
  {
    var r := "SELECT CDB_QueryTables($quotesql$" + sql + "$quotesql$)";
    assert r[0] == 'S';
    Psql.UnindentedPasses(r);
    r
  }

  /** What the pipeline hands the formatter: the normalised parameters, the headers and the statement to run. */
  datatype Plan = Plan(
    params: Params,
    contentDisposition: string,
    cacheChannel: string,
    cacheControl: string,
    lastModified: Option<string>,
    sql: string)

  datatype Outcome = Served(plan: Plan) | Failed(response: ErrorResponse)

  function EntryFor<K>(m: map<K, Entry>, key: K): (r: Option<Entry>)
    ensures r.Some? <==> key in m
  {
    if key in m then Some(m[key]) else None
  }

  const PersistCacheControl: string := "public,max-age=31536000"
  const DefaultCacheControl: string := "no-cache,max-age=3600,must-revalidate,public"

  /** Steps 4 and 5 of `handleQuery`: the headers and the statement for a request that passed the guard. */
  function PlanFor(p: Params, entry: Option<Entry>, now: string): Plan {
    Plan(p,
      ContentDisposition(p.format, p.filename, p.inline, now),
      GenerateCacheKey(p.database, entry, p.userId.Some?),
      if p.persist then PersistCacheControl else DefaultCacheControl,
      if p.persist then None else Some(now),
      WindowSql(p.sql, p.limit, p.offset))
  }

  /**
   * The headers of a served request: inline or attachment as asked, no
   * cache channel when the tables are unknown or an authenticated caller
   * may write, a year in the cache and no `Last-Modified` when the
   * statement is to persist, and the statement windowed only when it is a
   * SELECT with a limit and an offset.
   */
  lemma PlanHeaders(p: Params, entry: Option<Entry>, now: string)
    ensures var r := PlanFor(p, entry, now);
      && r.params == p
      && (p.inline ==> r.contentDisposition[..6] == "inline")
      && (!p.inline ==> r.contentDisposition[..10] == "attachment")
      && (r.cacheChannel == "NONE" <==> entry.None? || (p.userId.Some? && entry.value.mayWrite))
      && (p.persist ==> r.cacheControl == PersistCacheControl && r.lastModified.None?)
      && (!p.persist ==> r.cacheControl == DefaultCacheControl && r.lastModified == Some(now))
      && (p.limit.None? || p.offset.None? || !LooksLikeSelect(p.sql) ==> r.sql == p.sql)
  {
  }

  /**
   * Step 2 of `handleQuery`: the cached entry for `key`, counting the hit;
   * on a miss, the extraction statement through the wrapper, and a one-row
   * answer cached with one hit. The entry handed on is the one now cached.
   */
  method LookupTables<K(==)>(
    cache: TableCache<K>, pool: Psql.Pool, conn: Psql.Connection, key: K, sql: string,
    connectError: Option<JsError>, extraction: Result<Extraction, JsError>)
    returns (r: Result<Option<Entry>, JsError>)
    requires cache.Valid() && pool.Valid()
    modifies cache, pool
    ensures cache.Valid() && pool.Valid()
    ensures r.Ok? ==> r.value == EntryFor(cache.entries, key)
    ensures key in old(cache.entries) ==>
      && r.Ok?
      && cache.entries == old(cache.entries)[key := old(cache.entries)[key].(hits := old(cache.entries)[key].hits + 1)]
      && pool.State() == old(pool.State())
    ensures key !in old(cache.entries) && connectError.Some? ==>
      r == Err(connectError.value) && cache.entries == old(cache.entries) && pool.State() == old(pool.State())
    ensures key !in old(cache.entries) && connectError.None? ==>
      pool.State() == Psql.AfterQuery(old(pool.State()), conn.conString, ExtractionSql(sql))
    ensures key !in old(cache.entries) && connectError.None? && extraction.Err? ==>
      r == Err(extraction.error) && cache.entries == old(cache.entries)
    ensures key !in old(cache.entries) && connectError.None? && extraction.Ok? ==>
      && r.Ok?
      && cache.entries == if extraction.value.rowCount == 1
           then old(cache.entries)[key := Entry(extraction.value.queryTables, QueryMayWrite(sql), 1)]
           else old(cache.entries)
  {
    var item := cache.Get(key);
    if item.None? {
      var answer := Psql.Query(conn, pool, ExtractionSql(sql), connectError, extraction);
      if answer.Err? {
        return Err(answer.error);
      }
      item := cache.RecordExtraction(key, sql, answer.value.rowCount, answer.value.queryTables);
    }
    r := Ok(item);
  }

  /**
   * What steps 2 to 5 of `handleQuery` do, once the connection wrapper
   * `conn` exists, taking the cache from `entries` to `entries'` and the
   * pool from `pool` to `pool'`, and what they answer: a hit counts one
   * hit and never reaches the database; a miss runs the extraction
   * statement through the wrapper, taking one client and giving it back,
   * caches a one-row answer and caches nothing on failure; once the tables are known, a system table in them
   * forbids the request, and otherwise it is served with its plan.
   */
  predicate ServedFrom<K>(
    entries: map<K, Entry>, pool: Psql.PoolState, entries': map<K, Entry>, pool': Psql.PoolState,
    conn: Psql.Connection, p: Params, key: K,
    connectError: Option<JsError>, extraction: Result<Extraction, JsError>, now: string, out: Outcome)
  {
    var entry := EntryFor(entries', key);
    && (key in entries ==>
          entries' == entries[key := entries[key].(hits := entries[key].hits + 1)] && pool' == pool)
    && (key !in entries && connectError.Some? ==>
          out == Failed(HandleException(connectError.value)) && entries' == entries && pool' == pool)
    && (key !in entries && connectError.None? ==>
          pool' == Psql.AfterQuery(pool, conn.conString, ExtractionSql(p.sql)))
    && (key !in entries && connectError.None? && extraction.Err? ==>
          out == Failed(HandleException(extraction.error)) && entries' == entries)
    && (key !in entries && connectError.None? && extraction.Ok? ==>
          entries' == if extraction.value.rowCount == 1
            then entries[key := Entry(extraction.value.queryTables, QueryMayWrite(p.sql), 1)]
            else entries)
    && (key in entries || (connectError.None? && extraction.Ok?) ==>
          && (SystemTableError(entry).Some? ==> out == Failed(HandleException(SystemTableError(entry).value)))
          && (SystemTableError(entry).None? ==> out == Served(PlanFor(p, entry, now))))
    && (out.Served? ==> SystemTableError(entry).None? && out.plan == PlanFor(p, entry, now))
  }

  /**
   * Steps 2 to 5 of `handleQuery`, once the connection wrapper exists: look
   * the statement's tables up, run the system-table guard, choose the
   * headers and window the statement.
   */
  method ServeRequest<K(==)>(
    cache: TableCache<K>, pool: Psql.Pool, conn: Psql.Connection, p: Params, key: K,
    connectError: Option<JsError>, extraction: Result<Extraction, JsError>, now: string)
    returns (out: Outcome)
    requires cache.Valid() && pool.Valid()
    modifies cache, pool
    ensures cache.Valid() && pool.Valid()
    ensures ServedFrom(old(cache.entries), old(pool.State()), cache.entries, pool.State(), conn, p, key, connectError, extraction, now, out)
  {
    var authenticated := p.userId.Some?;

    // 2. The tables the statement touches, from the cache or from the database.
    var looked := LookupTables(cache, pool, conn, key, p.sql, connectError, extraction);
    if looked.Err? {
      return Failed(HandleException(looked.error));
    }
    var item := looked.value;

    // 3. No system tables.
    var denied := CheckSystemTables(item);
    if denied.Some? {
      return Failed(HandleException(denied.value));
    }

    // 4. Headers.
    var disposition := ContentDisposition(p.format, p.filename, p.inline, now);
    var channel := GenerateCacheKey(p.database, item, authenticated);
    var cacheControl := DefaultCacheControl;
    var lastModified: Option<string> := Some(now);
    if p.persist {
      cacheControl, lastModified := PersistCacheControl, None;
    }

    // 5. The statement the formatter runs.
    out := Served(Plan(p, disposition, channel, cacheControl, lastModified, WindowSql(p.sql, p.limit, p.offset)));
  }

  /**
   * What `handleQuery` does once its parameters are normalised to `input`,
   * taking the cache from `entries` to `entries'` and the pool from `pool`
   * to `pool'`: bad input is answered with its error and touches
   * nothing; a request with neither a user nor a database fails when the
   * connection wrapper is constructed, before the cache is consulted; any
   * other request is served from the cache or the database as `ServedFrom`
   * says. Only a request that passed every step is served.
   */
  predicate Handled<K>(
    entries: map<K, Entry>, pool: Psql.PoolState, entries': map<K, Entry>, pool': Psql.PoolState,
    fingerprint: string -> K, input: Result<Params, JsError>, settings: Psql.DbSettings,
    connectError: Option<JsError>, extraction: Result<Extraction, JsError>, now: string, out: Outcome)
  {
    && (input.Err? ==>
          out == Failed(HandleException(input.error)) && entries' == entries && pool' == pool)
    && (input.Ok? ==>
          var p := input.value;
          var conn := Psql.NewConnection(p.userId, p.database, settings);
          && (conn.Err? ==>
                out == Failed(HandleException(conn.error)) && entries' == entries && pool' == pool)
          && (conn.Ok? ==>
                ServedFrom(entries, pool, entries', pool', conn.value, p, fingerprint(p.sql), connectError, extraction, now, out)))
    && (out.Served? ==> input.Ok?)
  }

  /** Steps 1 to 5 of `handleQuery`, on the normalised parameters. */
  method Respond<K(==)>(
    cache: TableCache<K>, pool: Psql.Pool, fingerprint: string -> K,
    input: Result<Params, JsError>, settings: Psql.DbSettings,
    connectError: Option<JsError>, extraction: Result<Extraction, JsError>, now: string)
    returns (out: Outcome)
    requires cache.Valid() && pool.Valid()
    modifies cache, pool
    ensures cache.Valid() && pool.Valid()
    ensures Handled(old(cache.entries), old(pool.State()), cache.entries, pool.State(), fingerprint, input, settings, connectError, extraction, now, out)
  {
    if input.Err? {
      return Failed(HandleException(input.error));
    }
    var p := input.value;

    // 1. The connection wrapper, and whether the caller is authenticated.
    var conn := Psql.NewConnection(p.userId, p.database, settings);
    if conn.Err? {
      return Failed(HandleException(conn.error));
    }

    // 2 to 5.
    out := ServeRequest(cache, pool, conn.value, p, fingerprint(p.sql), connectError, extraction, now);
  }

  /**
   * `handleQuery`: normalise the parameters, construct the connection
   * wrapper, then serve the request. `connectError` and `extraction` are
   * what the pool and the database answer to the extraction statement;
   * `now` is the request's time.
   */
  method HandleQuery<K(==)>(
    cache: TableCache<K>, pool: Psql.Pool, fingerprint: string -> K,
    req: Request, formats: set<string>, settings: Psql.DbSettings,
    connectError: Option<JsError>, extraction: Result<Extraction, JsError>, now: string)
    returns (out: Outcome)
    requires cache.Valid() && pool.Valid()
    modifies cache, pool
    ensures cache.Valid() && pool.Valid()
    ensures Handled(old(cache.entries), old(pool.State()), cache.entries, pool.State(),
      fingerprint, Normalized(req, formats), settings, connectError, extraction, now, out)
  {
    var input := NormalizeInput(req, formats);
    out := Respond(cache, pool, fingerprint, input, settings, connectError, extraction, now);
  }
}
