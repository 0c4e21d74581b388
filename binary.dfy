/**
 * The front end of the binary columnar format: each column's element type
 * is inferred from a name suffix (`__int8`, `__uintclamp16`, ...) and from
 * the value the column has in the first row; the rows are transposed into
 * one typed block per column; and the blocks are nested, after a block of
 * column names, under a single top-level BUFFER block.
 *
 * The serializer that lays blocks out as bytes (`bin_encoder`) is not part
 * of this model: a block is the value `Block(typeCode, data)` it would be
 * given, and its type constants are a parameter record.
 */
module Binary {
  import opened Js

  /** The serializer's type constants: `STRING`, `FLOAT32`, `BUFFER` and the `typeNames` table. */
  datatype TypeCodes = TypeCodes(stringCode: int, float32: int, buffer: int, typeNames: map<string, int>)

  /**
   * What the format relies on of those constants: every element type code is
   * positive and at most BUFFER, so `BUFFER + t > BUFFER` marks, and only
   * marks, an array-valued column.
   */
  predicate WellFormed(c: TypeCodes) {
    && 0 < c.stringCode <= c.buffer
    && 0 < c.float32 <= c.buffer
    && forall n :: n in c.typeNames ==> 0 < c.typeNames[n] <= c.buffer
  }

  // ---------------------------------------------------------------------------
  // The descriptor

  function FormatId(): (r: string)
    ensures r == "bin"
  {
    "bin"
  }

  /** `getQuery`: the binary format runs the statement as given. */
  function GetQuery(sql: string): (r: string)
    ensures r == sql
  {
    sql
  }

  function ContentType(): (r: string)
    ensures r == "application/octet-stream"
  {
    "application/octet-stream"
  }

  /** `getFileExtension` is the format's id. */
  function FileExtension(): (r: string)
    ensures r == FormatId() && r == "bin"
  {
    FormatId()
  }

  // ---------------------------------------------------------------------------
  // _extractTypeFromName: /.*__(uintclamp|uint|int|float)(8|16|32)/i

  /** `(uintclamp|uint|int|float)(8|16|32)`, in the order the regular expression tries them. */
  const Alternatives: seq<string> := [
    "uintclamp8", "uintclamp16", "uintclamp32",
    "uint8", "uint16", "uint32",
    "int8", "int16", "int32",
    "float8", "float16", "float32"]

  /** The `idx`-th alternative. */
  function Alternative(idx: nat): (w: string)
    requires idx < 12
    ensures |w| >= 4
  {
    Alternatives[idx]
  }

  /** The alternatives from `idx` on, tried at `i`: the text of the first that matches. */
  function FirstAlternative(name: string, i: nat, idx: nat): (r: Option<string>)
    requires idx <= 12
    decreases 12 - idx
  {
    if idx == 12 then None
    else if MatchesAt(name, i, Alternative(idx)) then Some(name[i..i + |Alternative(idx)|])
    else FirstAlternative(name, i, idx + 1)
  }

  /** `__` followed by a type name at `j`; the captured `g[1] + g[2]`, in the case written. */
  function TypeAt(name: string, j: nat): (r: Option<string>)
  {
    if j + 2 <= |name| && name[j] == '_' && name[j + 1] == '_' then FirstAlternative(name, j + 2, 0) else None
  }

  /** Where `.*` started at `s` must stop: the first line terminator at or after `s`. */
  function LineEnd(name: string, s: nat): (e: nat)
    requires s <= |name|
    ensures s <= e <= |name|
    decreases |name| - s
  {
    if s == |name| || IsLineTerminator(name[s]) then s else LineEnd(name, s + 1)
  }

  /** The outcome of the rest of the pattern at every position of `name`. */
  function Candidates(name: string): (c: seq<Option<string>>)
    ensures |c| == |name| + 1
  {
    seq(|name| + 1, k requires 0 <= k <= |name| => TypeAt(name, k))
  }

  /** Greedy `.*` from `s`: the candidate positions are tried from `j` down to `s`. */
  function Backtrack(c: seq<Option<string>>, s: nat, j: nat): (r: Option<string>)
    requires s <= j < |c|
    decreases j
  {
    if c[j].Some? then c[j]
    else if j == s then None
    else Backtrack(c, s, j - 1)
  }

  /** The match attempts at start positions `s`, `s + 1`, ... */
  function Search(name: string, s: nat): (r: Option<string>)
    requires s <= |name|
    decreases |name| - s
  {
    var g := Backtrack(Candidates(name), s, LineEnd(name, s));
    if g.Some? then g
    else if s == |name| then None
    else Search(name, s + 1)
  }

  /** The captured type name of `name`, when the pattern matches. */
  function CapturedTypeName(name: string): (r: Option<string>)
  {
    Search(name, 0)
  }

  /** `_extractTypeFromName(name)`: `typeNames[g[1] + g[2]]`, `None` standing for `undefined`. */
  function ExtractTypeFromName(codes: TypeCodes, name: string): (r: Option<int>)
    ensures r.Some? ==> r.value in codes.typeNames.Values
    ensures CapturedTypeName(name).None? ==> r.None?
  {
    var g := CapturedTypeName(name);
    if g.Some? && g.value in codes.typeNames then Some(codes.typeNames[g.value]) else None
  }

  /** The alternatives are tried in order: a result is the text of one that matches, none means none matches. */
  lemma {:induction false} FirstAlternativeSpec(name: string, i: nat, idx: nat)
    requires idx <= 12
    ensures var r := FirstAlternative(name, i, idx);
      r.Some? ==> exists a :: idx <= a < 12 && MatchesAt(name, i, Alternative(a)) && r.value == name[i..i + |Alternative(a)|]
    ensures FirstAlternative(name, i, idx).None? ==> forall a :: idx <= a < 12 ==> !MatchesAt(name, i, Alternative(a))
    decreases 12 - idx
  {
    if idx < 12 && !MatchesAt(name, i, Alternative(idx)) {
      FirstAlternativeSpec(name, i, idx + 1);
    }
  }

  /** `.*` backtracks: a result is a candidate between `s` and `j`, none means every one of them failed. */
  lemma {:induction false} BacktrackSpec(c: seq<Option<string>>, s: nat, j: nat)
    requires s <= j < |c|
    ensures Backtrack(c, s, j).Some? ==> exists k :: s <= k <= j && c[k] == Backtrack(c, s, j)
    ensures Backtrack(c, s, j).None? ==> forall k :: s <= k <= j ==> c[k].None?
    decreases j
  {
    if c[j].None? && j > s {
      BacktrackSpec(c, s, j - 1);
    }
  }

  /** The search finds a type name after some `__` from `s` on, or there is none. */
  lemma {:induction false} SearchSpec(name: string, s: nat)
    requires s <= |name|
    ensures Search(name, s).Some? ==> exists k :: s <= k <= |name| && TypeAt(name, k) == Search(name, s)
    ensures Search(name, s).None? ==> forall k :: s <= k <= |name| ==> TypeAt(name, k).None?
    decreases |name| - s
  {
    var c := Candidates(name);
    var e := LineEnd(name, s);
    var g := Backtrack(c, s, e);
    BacktrackSpec(c, s, e);
    if g.Some? {
      var k :| s <= k <= e && c[k] == g;
      assert c[k] == TypeAt(name, k);
    } else {
      assert c[s] == TypeAt(name, s);
      if s < |name| {
        SearchSpec(name, s + 1);
      }
    }
  }

  /** What follows a `__` is one of the twelve type names, in any case. */
  lemma TypeAtSpec(name: string, j: nat)
    requires TypeAt(name, j).Some?
    ensures exists a :: 0 <= a < 12 && Lower(TypeAt(name, j).value) == Alternative(a)
  {
    var r := FirstAlternative(name, j + 2, 0);
    assert TypeAt(name, j) == r;
    FirstAlternativeSpec(name, j + 2, 0);
    var a :| 0 <= a < 12 && MatchesAt(name, j + 2, Alternative(a)) && r.value == name[j + 2..j + 2 + |Alternative(a)|];
    var w := Alternative(a);
    assert Lower(name[j + 2..j + 2 + |w|]) == w;
  }

  /** The pattern matches exactly when some `__` is followed by one of the twelve type names, in any case. */
  lemma CapturedTypeNameExists(name: string)
    ensures CapturedTypeName(name).Some? <==> exists j :: 0 <= j <= |name| && TypeAt(name, j).Some?
    ensures CapturedTypeName(name).Some? ==> exists a :: 0 <= a < 12 && Lower(CapturedTypeName(name).value) == Alternative(a)
  {
    SearchSpec(name, 0);
    if CapturedTypeName(name).Some? {
      var j :| 0 <= j <= |name| && TypeAt(name, j) == CapturedTypeName(name);
      TypeAtSpec(name, j);
    }
  }

  /**
   * On one line of text the greedy `.*` makes the LAST `__<type>` win:
   * `x__int8__float32` is captured as `float32`.
   */
  lemma {:induction false} LastSuffixWins(name: string, j: nat)
    requires forall k :: 0 <= k < |name| ==> !IsLineTerminator(name[k])
    requires j <= |name| && TypeAt(name, j).Some?
    requires forall k :: j < k <= |name| ==> TypeAt(name, k).None?
    ensures CapturedTypeName(name) == TypeAt(name, j)
  {
    LineEndOfOneLine(name, 0);
    var c := Candidates(name);
    BacktrackFindsLast(c, 0, |name|, j);
  }

  lemma {:induction false} LineEndOfOneLine(name: string, s: nat)
    requires s <= |name|
    requires forall k :: 0 <= k < |name| ==> !IsLineTerminator(name[k])
    ensures LineEnd(name, s) == |name|
    decreases |name| - s
  {
    if s < |name| {
      LineEndOfOneLine(name, s + 1);
    }
  }

  lemma {:induction false} BacktrackFindsLast(c: seq<Option<string>>, s: nat, top: nat, j: nat)
    requires s <= j <= top < |c|
    requires c[j].Some?
    requires forall k :: j < k <= top ==> c[k].None?
    ensures Backtrack(c, s, top) == c[j]
    decreases top
  {
    if top > j {
      BacktrackFindsLast(c, s, top - 1, j);
    }
  }

  // ---------------------------------------------------------------------------
  // Values, rows and blocks

  /** A JavaScript value as the database driver produces it. */
  datatype Value =
    | Undefined
    | Null
    | Boolean(b: bool)
    | Number(x: real)
    | Str(s: string)
    | Array(items: seq<Value>)
    | Object(fields: seq<(string, Value)>)

  /** `typeof v == 'object'`: `null`, arrays and other objects. */
  predicate IsObject(v: Value) {
    v.Null? || v.Array? || v.Object?
  }

  /** A result row: its keys in `Object.keys` order and its values by key. */
  datatype Row = Row(names: seq<string>, cells: map<string, Value>)

  /** `row[n]`: `undefined` when the row has no such key. */
  function Get(row: Row, n: string): (v: Value)
    ensures n !in row.cells ==> v.Undefined?
  {
    if n in row.cells then row.cells[n] else Undefined
  }

  /** What `transform` is given: the driver's row count and rows. */
  datatype QueryResult = QueryResult(rowCount: nat, rows: seq<Row>)

  /** A serializer argument: a raw value, a block, or an array of them. */
  datatype Data = Leaf(value: Value) | Nested(block: Block) | Items(items: seq<Data>)

  /** `new ArrayBufferSer(typeCode, data)`. */
  datatype Block = Block(typeCode: int, data: Data)

  /** What `transform` hands its callback: an empty `Buffer`, or the top block's bytes. */
  datatype Output = EmptyBuffer | Encoded(block: Block)

  const RowsMissingMessage: string := "TypeError: a row of the result is undefined"

  /** The element type a column name asks for, FLOAT32 when it asks for none. */
  function NameTypeOr(codes: TypeCodes, name: string): (t: int)
    ensures ExtractTypeFromName(codes, name).Some? ==> t == ExtractTypeFromName(codes, name).value
    ensures ExtractTypeFromName(codes, name).None? ==> t == codes.float32
    ensures WellFormed(codes) ==> 0 < t <= codes.buffer
  {
    var t := ExtractTypeFromName(codes, name);
    if t.Some? then t.value else codes.float32
  }

  /** The type of a column, decided by its first-row value `v`. */
  function HeaderType(codes: TypeCodes, name: string, v: Value): (t: int)
    ensures v.Str? ==> t == codes.stringCode
    ensures !v.Str? && IsObject(v) ==> t == codes.buffer + NameTypeOr(codes, name)
    ensures !v.Str? && !IsObject(v) ==> t == NameTypeOr(codes, name)
  {
    if v.Str? then codes.stringCode
    else if IsObject(v) then codes.buffer + NameTypeOr(codes, name)
    else NameTypeOr(codes, name)
  }

  function HeaderTypes(codes: TypeCodes, first: Row): (ts: seq<int>)
    ensures |ts| == |first.names|
    ensures forall i :: 0 <= i < |ts| ==> ts[i] == HeaderType(codes, first.names[i], Get(first, first.names[i]))
  {
    seq(|first.names|, i requires 0 <= i < |first.names| => HeaderType(codes, first.names[i], Get(first, first.names[i])))
  }

  /** A cell of a column of type `t`: wrapped in a block of element type `t - BUFFER` in an array column. */
  function Cell(codes: TypeCodes, t: int, v: Value): Data {
    if t > codes.buffer then Nested(Block(t - codes.buffer, Leaf(v))) else Leaf(v)
  }

  function HeaderBlock(codes: TypeCodes, names: seq<string>): Block {
    Block(codes.stringCode, Items(seq(|names|, i requires 0 <= i < |names| => Leaf(Str(names[i])))))
  }

  /** Column `n` of the first `total` rows, in row order. */
  function ColumnBlock(codes: TypeCodes, t: int, rows: seq<Row>, n: string, total: nat): Block
    requires total <= |rows|
  {
    Block(t, Items(seq(total, r requires 0 <= r < total => Cell(codes, t, Get(rows[r], n)))))
  }

  /** The column blocks, one per name of the first row. */
  function Columns(codes: TypeCodes, rows: seq<Row>, total: nat): (cs: seq<Data>)
    requires rows != [] && (|rows[0].names| > 0 ==> total <= |rows|)
    ensures |cs| == |rows[0].names|
    ensures forall i :: 0 <= i < |cs| ==>
      cs[i] == Nested(ColumnBlock(codes, HeaderType(codes, rows[0].names[i], Get(rows[0], rows[0].names[i])), rows, rows[0].names[i], total))
  {
    var names := rows[0].names;
    seq(|names|, i requires 0 <= i < |names| =>
      Nested(ColumnBlock(codes, HeaderType(codes, names[i], Get(rows[0], names[i])), rows, names[i], total)))
  }

  /** The top-level BUFFER block: the names block, then the columns. */
  function TopBlock(codes: TypeCodes, rows: seq<Row>, total: nat): Block
    requires rows != [] && (|rows[0].names| > 0 ==> total <= |rows|)
  {
    Block(codes.buffer, Items([Nested(HeaderBlock(codes, rows[0].names))] + Columns(codes, rows, total)))
  }

  /** What `transform` produces for `res`; the method below computes it with the source's loops. */
  function Encode(codes: TypeCodes, res: QueryResult): Result<Output, JsError> {
    if res.rowCount == 0 then Ok(EmptyBuffer)
    else if res.rows == [] then Err(JsError(RowsMissingMessage, None))
    else if |res.rows[0].names| > 0 && res.rowCount > |res.rows| then Err(JsError(RowsMissingMessage, None))
    else Ok(Encoded(TopBlock(codes, res.rows, res.rowCount)))
  }

  /** The first loop of `transform`: the type of each column, from the first row. */
  method ColumnTypes(codes: TypeCodes, first: Row) returns (headerTypes: seq<int>)
    ensures headerTypes == HeaderTypes(codes, first)
  {
    var names := first.names;
    headerTypes := [];
    for i := 0 to |names|
      invariant |headerTypes| == i
      invariant forall k :: 0 <= k < i ==> headerTypes[k] == HeaderType(codes, names[k], Get(first, names[k]))
    {
      var v := Get(first, names[i]);
      var ht: int;
      if v.Str? {
        ht := codes.stringCode;
      } else if IsObject(v) {
        var t := ExtractTypeFromName(codes, names[i]);
        var elem := if t.None? then codes.float32 else t.value;
        ht := codes.buffer + elem;
      } else {
        var t := ExtractTypeFromName(codes, names[i]);
        ht := if t.None? then codes.float32 else t.value;
      }
      assert ht == HeaderType(codes, names[i], v);
      headerTypes := headerTypes + [ht];
    }
  }

  /**
   * The inner loop of `transform`: column `n` of the first `total` rows, each
   * cell wrapped when `t` is an array type. `None` when there are fewer rows
   * than `total`, where `rows[r][n]` of `undefined` throws.
   */
  method ColumnCells(codes: TypeCodes, t: int, rows: seq<Row>, n: string, total: nat) returns (d: Option<seq<Data>>)
    ensures total <= |rows| ==> d == Some(ColumnBlock(codes, t, rows, n, total).data.items)
    ensures total > |rows| ==> d.None?
  {
    var cells: seq<Data> := [];
    for row := 0 to total
      invariant row <= |rows|
      invariant |cells| == row
      invariant forall m :: 0 <= m < row ==> cells[m] == Cell(codes, t, Get(rows[m], n))
    {
      if row == |rows| {
        return None;
      }
      var cell: Data := Leaf(Get(rows[row], n));
      if t > codes.buffer {
        cell := Nested(Block(t - codes.buffer, Leaf(Get(rows[row], n))));
      }
      cells := cells + [cell];
    }
    assert cells == ColumnBlock(codes, t, rows, n, total).data.items;
    d := Some(cells);
  }

  /**
   * `transform(result, options, callback)`: the types of the columns from the
   * first row, then one block per column holding that column of every row,
   * then the BUFFER block around them all. Only that block is emitted: the
   * file-tag and version buffer the source allocates is never used.
   */
  method Transform(codes: TypeCodes, result: QueryResult) returns (r: Result<Output, JsError>)
    ensures r == Encode(codes, result)
  {
    var total := result.rowCount;
    var rows := result.rows;
    if total == 0 {
      return Ok(EmptyBuffer);
    }
    if |rows| == 0 {
      // Object.keys(rows[0]) of undefined throws.
      return Err(JsError(RowsMissingMessage, None));
    }
    var names := rows[0].names;
    var headerTypes := ColumnTypes(codes, rows[0]);
    var header := HeaderBlock(codes, names);
    var data: seq<Data> := [Nested(header)];
    for i := 0 to |names|
      invariant |data| == i + 1 && data[0] == Nested(header)
      invariant i > 0 ==> total <= |rows|
      invariant forall k :: 0 <= k < i ==> total <= |rows| && data[k + 1] == Nested(ColumnBlock(codes, headerTypes[k], rows, names[k], total))
    {
      var d := ColumnCells(codes, headerTypes[i], rows, names[i], total);
      if d.None? {
        return Err(JsError(RowsMissingMessage, None));
      }
      data := data + [Nested(Block(headerTypes[i], Items(d.value)))];
    }
    var all := Block(codes.buffer, Items(data));
    assert data == [Nested(header)] + Columns(codes, rows, total);
    r := Ok(Encoded(all));
  }

  // ---------------------------------------------------------------------------
  // What the encoding promises

  /** The value a cell block carries, unwrapped from its element block in an array column. */
  function CellValue(d: Data): Value {
    match d
    case Leaf(v) => v
    case Nested(Block(_, Leaf(v))) => v
    case _ => Undefined
  }

  /** A row count of zero gives an empty buffer, whatever the rows. */
  lemma EmptyResult(codes: TypeCodes, rows: seq<Row>)
    ensures Encode(codes, QueryResult(0, rows)) == Ok(EmptyBuffer)
  {
  }

  /**
   * The output is one BUFFER block of `1 + ncols` children: the column names
   * in order as a STRING block, then for each column a block of the
   * column's type holding that column of every row, in row order.
   */
  lemma {:induction false} EncodeShape(codes: TypeCodes, res: QueryResult)
    requires Encode(codes, res).Ok? && Encode(codes, res).value.Encoded?
    ensures res.rows != []
    ensures var b := Encode(codes, res).value.block;
      var names := res.rows[0].names;
      && b.typeCode == codes.buffer && b.data.Items?
      && |b.data.items| == 1 + |names|
      && b.data.items[0] == Nested(HeaderBlock(codes, names))
      && forall i :: 0 <= i < |names| ==>
        && b.data.items[i + 1].Nested?
        && b.data.items[i + 1].block.typeCode == HeaderType(codes, names[i], Get(res.rows[0], names[i]))
        && b.data.items[i + 1].block.data.Items?
        && |b.data.items[i + 1].block.data.items| == res.rowCount
  {
    var b := TopBlock(codes, res.rows, res.rowCount);
    var cs := Columns(codes, res.rows, res.rowCount);
    assert b.data.items == [Nested(HeaderBlock(codes, res.rows[0].names))] + cs;
    forall i | 0 <= i < |res.rows[0].names|
      ensures b.data.items[i + 1] == cs[i]
      ensures cs[i].Nested? && cs[i].block.data.Items? && |cs[i].block.data.items| == res.rowCount
      ensures cs[i].block.typeCode == HeaderType(codes, res.rows[0].names[i], Get(res.rows[0], res.rows[0].names[i]))
    {
      ColumnShape(codes, res.rows, res.rowCount, i);
    }
  }

  /** Column `i` is a block of the column's type holding `total` cells. */
  lemma ColumnShape(codes: TypeCodes, rows: seq<Row>, total: nat, i: nat)
    requires rows != [] && i < |rows[0].names| && total <= |rows|
    ensures var c := Columns(codes, rows, total)[i];
      && c.Nested? && c.block.data.Items? && |c.block.data.items| == total
      && c.block.typeCode == HeaderType(codes, rows[0].names[i], Get(rows[0], rows[0].names[i]))
  {
  }

  /** The names block holds the first row's keys, in order. */
  lemma HeaderBlockNames(codes: TypeCodes, names: seq<string>, i: nat)
    requires i < |names|
    ensures HeaderBlock(codes, names).typeCode == codes.stringCode
    ensures |HeaderBlock(codes, names).data.items| == |names|
    ensures HeaderBlock(codes, names).data.items[i] == Leaf(Str(names[i]))
  {
  }

  /**
   * Transposing back: column `i` has the header type of its first-row
   * value, and its cell `r` is row `r`'s value of column `i`, wrapped as
   * `Cell` says for that type (in a block of the element type in an array
   * column, raw otherwise).
   */
  lemma {:induction false} EncodeTransposes(codes: TypeCodes, res: QueryResult, i: nat, r: nat)
    requires Encode(codes, res).Ok? && Encode(codes, res).value.Encoded?
    requires res.rows != [] && i < |res.rows[0].names| && r < res.rowCount
    ensures r < |res.rows|
    ensures var column := Encode(codes, res).value.block.data.items[i + 1].block;
      && column.typeCode == HeaderType(codes, res.rows[0].names[i], Get(res.rows[0], res.rows[0].names[i]))
      && column.data.items[r] == Cell(codes, column.typeCode, Get(res.rows[r], res.rows[0].names[i]))
      && CellValue(column.data.items[r]) == Get(res.rows[r], res.rows[0].names[i])
  {
    var names := res.rows[0].names;
    var b := TopBlock(codes, res.rows, res.rowCount);
    var cs := Columns(codes, res.rows, res.rowCount);
    assert b.data.items == [Nested(HeaderBlock(codes, names))] + cs;
    assert b.data.items[i + 1] == cs[i];
    var t := HeaderType(codes, names[i], Get(res.rows[0], names[i]));
    var column := ColumnBlock(codes, t, res.rows, names[i], res.rowCount);
    assert cs[i] == Nested(column);
    assert column.data.items[r] == Cell(codes, t, Get(res.rows[r], names[i]));
  }

  /**
   * Column typing, from the first-row value `v`: a string gives STRING, an
   * object (null and arrays included) gives an array column of the named
   * element type, anything else the named scalar type; with FLOAT32 when the
   * name asks for none. Cells are wrapped exactly in array columns, each in
   * a block of the element type.
   */
  lemma {:induction false} ColumnTyping(codes: TypeCodes, name: string, v: Value, w: Value)
    requires WellFormed(codes)
    ensures var t := HeaderType(codes, name, v);
      && (t > codes.buffer <==> !v.Str? && IsObject(v))
      && (t > codes.buffer ==> Cell(codes, t, w) == Nested(Block(NameTypeOr(codes, name), Leaf(w))))
      && (t <= codes.buffer ==> Cell(codes, t, w) == Leaf(w))
      && (v.Str? ==> t == codes.stringCode)
      && (!IsObject(v) && !v.Str? ==> t == NameTypeOr(codes, name))
  {
    var t := NameTypeOr(codes, name);
    assert 0 < t <= codes.buffer;
  }

  /** A name that asks for no known type gives a FLOAT32 column, or a FLOAT32 array column for objects. */
  lemma DefaultsToFloat32(codes: TypeCodes, name: string, v: Value)
    requires CapturedTypeName(name).None?
    ensures !v.Str? && !IsObject(v) ==> HeaderType(codes, name, v) == codes.float32
    ensures IsObject(v) ==> HeaderType(codes, name, v) == codes.buffer + codes.float32
  {
  }
}
