/**
 * Evidence that a cleanup changed nothing: a self-delimiting stream of every critical table, and the checks over it.
 */
module Evidence {
  import opened Text
  import opened Decimal

  const WIDTH: nat := 8
  const MAX_LENGTH: nat := 0x7FFF_FFFF_FFFF_FFFF

  // ---------- lengths ----------

  function Power256(k: nat): (p: nat)
    ensures p >= 1
  {
    if k == 0 then 1 else 256 * Power256(k - 1)
  }

  function BigEndian(n: nat, k: nat): (bytes: Bytes)
    ensures |bytes| == k
  {
    if k == 0 then [] else BigEndian(n / 256, k - 1) + [n % 256]
  }

  function FromBigEndian(bytes: Bytes): nat {
    if bytes == [] then 0 else 256 * FromBigEndian(bytes[..|bytes| - 1]) + bytes[|bytes| - 1]
  }

  lemma {:induction false} LengthComesBack(n: nat, k: nat)
    requires n < Power256(k)
    ensures FromBigEndian(BigEndian(n, k)) == n
  {
    if k > 0 {
      LengthComesBack(n / 256, k - 1);
      assert BigEndian(n, k)[..k - 1] == BigEndian(n / 256, k - 1);
    }
  }

  lemma LengthsFit(n: nat)
    requires n <= MAX_LENGTH
    ensures n < Power256(WIDTH)
  {
    assert Power256(4) == 0x1_0000_0000;
  }

  // ---------- the stream ----------

  function Record(value: Bytes): Bytes {
    BigEndian(|value|, WIDTH) + value
  }

  function Stream(values: seq<Bytes>): Bytes {
    if values == [] then [] else Record(values[0]) + Stream(values[1..])
  }

  /** Read a stream back; nothing if it does not split into records. */
  function ReadStream(bytes: Bytes): Option<seq<Bytes>>
    decreases |bytes|
  {
    if bytes == [] then Some([])
    else if |bytes| < WIDTH then None
    else
      var n := FromBigEndian(bytes[..WIDTH]);
      if |bytes| < WIDTH + n then None
      else
        var rest := ReadStream(bytes[WIDTH + n..]);
        if rest.None? then None else Some([bytes[WIDTH..WIDTH + n]] + rest.value)
  }

  /** Values as long as a program can hold. */
  predicate Held(values: seq<Bytes>) {
    forall i | 0 <= i < |values| :: |values[i]| <= MAX_LENGTH
  }

  lemma RecordSplits(value: Bytes, rest: Bytes)
    requires |value| <= MAX_LENGTH
    ensures var bytes := Record(value) + rest;
            && |bytes| >= WIDTH + |value| && FromBigEndian(bytes[..WIDTH]) == |value|
            && bytes[WIDTH..WIDTH + |value|] == value && bytes[WIDTH + |value|..] == rest
  {
    var bytes := Record(value) + rest;
    LengthsFit(|value|);
    LengthComesBack(|value|, WIDTH);
    assert bytes[..WIDTH] == BigEndian(|value|, WIDTH);
  }

  /** The stream is decodable: reading it gives back the values that were written. */
  lemma {:induction false} StreamIsDecodable(values: seq<Bytes>)
    requires Held(values)
    ensures ReadStream(Stream(values)) == Some(values)
  {
    hide Record, FromBigEndian, BigEndian;
    if values != [] {
      StreamIsDecodable(values[1..]);
      RecordSplits(values[0], Stream(values[1..]));
      assert values == [values[0]] + values[1..];
    }
  }

  // ---------- cells ----------

  /** A database value: `Printed` stands for any other Go value, by its type's name and its printed form. */
  datatype Cell = Null | Blob(bytes: Bytes) | Printed(kind: string, text: Bytes)

  /** Type names are plain identifiers, and the driver's byte slices never come as anything but blobs. */
  predicate CellOk(c: Cell) {
    c.Printed? ==> Plain(c.kind) && c.kind != "bytes"
  }

  predicate Plain(s: string) {
    IsAscii(s) && forall i | 0 <= i < |s| :: s[i] != ':'
  }

  predicate IsAscii(s: string) {
    forall i | 0 <= i < |s| :: s[i] < 128 as char
  }

  function Ascii(s: string): (bytes: Bytes)
    requires IsAscii(s)
    ensures |bytes| == |s|
    ensures forall i | 0 <= i < |s| :: bytes[i] == s[i] as int
  {
    if s == "" then [] else
      var first: byte := s[0] as int;
      [first] + Ascii(s[1..])
  }

  const COLON: byte := 58

  function HexDigit(n: nat): (b: byte)
    requires n < 16
  {
    if n < 10 then 48 + n else 87 + n
  }

  function Hex(bytes: Bytes): (h: Bytes)
    ensures |h| == 2 * |bytes|
  {
    if bytes == [] then [] else [HexDigit(bytes[0] / 16), HexDigit(bytes[0] % 16)] + Hex(bytes[1..])
  }

  function Render(c: Cell): Bytes
    requires CellOk(c)
  {
    match c
    case Null => Ascii("null")
    case Blob(bytes) => Ascii("bytes") + [COLON] + Hex(bytes)
    case Printed(kind, text) => Ascii(kind) + [COLON] + text
  }

  lemma {:induction false} HexIsInjective(a: Bytes, b: Bytes)
    requires Hex(a) == Hex(b)
    ensures a == b
  {
    if a != [] {
      assert |a| == |b|;
      assert Hex(a)[0] == Hex(b)[0] && Hex(a)[1] == Hex(b)[1];
      assert a[0] == b[0];
      assert Hex(a)[2..] == Hex(a[1..]) && Hex(b)[2..] == Hex(b[1..]);
      HexIsInjective(a[1..], b[1..]);
      assert a == [a[0]] + a[1..] && b == [b[0]] + b[1..];
    }
  }

  lemma {:induction false} AsciiIsInjective(a: string, b: string)
    requires IsAscii(a) && IsAscii(b) && Ascii(a) == Ascii(b)
    ensures a == b
  {
    forall i | 0 <= i < |a|
      ensures a[i] == b[i]
    {
      assert Ascii(a)[i] == Ascii(b)[i];
    }
  }

  /** Everything before the first colon names the kind. */
  lemma PrefixesAgree(a: string, b: string, s: Bytes, t: Bytes)
    requires Plain(a) && Plain(b) && Ascii(a) + [COLON] + s == Ascii(b) + [COLON] + t
    ensures a == b && s == t
  {
    var x, y := Ascii(a) + [COLON] + s, Ascii(b) + [COLON] + t;
    FirstColon(a, s);
    FirstColon(b, t);
    assert x[|a|] == y[|a|] && x[|b|] == y[|b|];
    assert Ascii(a) == x[..|a|] && Ascii(b) == y[..|b|];
    AsciiIsInjective(a, b);
    assert s == x[|a| + 1..] && t == y[|b| + 1..];
  }

  lemma FirstColon(kind: string, s: Bytes)
    requires Plain(kind)
    ensures var x := Ascii(kind) + [COLON] + s;
            x[|kind|] == COLON && forall i | 0 <= i < |kind| :: x[i] != COLON
  {
  }

  lemma NullIsApart(kind: string, s: Bytes)
    requires Plain(kind)
    ensures Ascii("null") != Ascii(kind) + [COLON] + s
  {
    var x, y := Ascii("null"), Ascii(kind) + [COLON] + s;
    assert |kind| < 4 ==> x[|kind|] == "null"[|kind|] as int && y[|kind|] == COLON;
  }

  /** The part before the colon, and the part after it. */
  function Kind(c: Cell): (k: string)
    requires CellOk(c) && !c.Null?
    ensures Plain(k)
  {
    if c.Blob? then "bytes" else c.kind
  }

  function Content(c: Cell): Bytes
    requires !c.Null?
  {
    if c.Blob? then Hex(c.bytes) else c.text
  }

  lemma OnlyNullRendersNull(c: Cell)
    requires CellOk(c)
    ensures Render(c) == Ascii("null") <==> c.Null?
  {
    if !c.Null? {
      NullIsApart(Kind(c), Content(c));
    }
  }

  /** Null, byte and other values never render alike. */
  lemma RenderIsInjective(a: Cell, b: Cell)
    requires CellOk(a) && CellOk(b) && Render(a) == Render(b)
    ensures a == b
  {
    OnlyNullRendersNull(a);
    OnlyNullRendersNull(b);
    if !a.Null? && !b.Null? {
      PrefixesAgree(Kind(a), Kind(b), Content(a), Content(b));
      if a.Blob? && b.Blob? {
        HexIsInjective(a.bytes, b.bytes);
      }
    }
  }

  // ---------- tables ----------

  type Line = seq<Cell>

  /** Rows of as many cells as there are columns, with values a program can hold. */
  predicate TableOk(width: nat, rows: seq<Line>) {
    forall i | 0 <= i < |rows| :: |rows[i]| == width && LineOk(rows[i])
  }

  predicate LineOk(line: Line) {
    forall j | 0 <= j < |line| :: CellOk(line[j]) && |Render(line[j])| <= MAX_LENGTH
  }

  function RenderAll(line: Line): (values: seq<Bytes>)
    requires LineOk(line)
    ensures |values| == |line| && forall j | 0 <= j < |line| :: values[j] == Render(line[j])
  {
    seq(|line|, j requires 0 <= j < |line| => Render(line[j]))
  }

  function Values(rows: seq<Line>, width: nat): seq<Bytes>
    requires TableOk(width, rows)
  {
    if rows == [] then [] else Values(rows[..|rows| - 1], width) + RenderAll(rows[|rows| - 1])
  }

  function TableStream(columns: seq<Bytes>, rows: seq<Line>): Bytes
    requires TableOk(|columns|, rows)
  {
    Stream(columns + Values(rows, |columns|))
  }

  lemma {:induction false} ValuesAreHeld(rows: seq<Line>, width: nat)
    requires TableOk(width, rows)
    ensures Held(Values(rows, width)) && |Values(rows, width)| == width * |rows|
  {
    if rows != [] {
      ValuesAreHeld(rows[..|rows| - 1], width);
      assert width * |rows| == width * (|rows| - 1) + width;
    }
  }

  lemma LineIsRecovered(a: Line, b: Line)
    requires LineOk(a) && LineOk(b) && RenderAll(a) == RenderAll(b)
    ensures a == b
  {
    forall j | 0 <= j < |a|
      ensures a[j] == b[j]
    {
      assert RenderAll(a)[j] == RenderAll(b)[j];
      RenderIsInjective(a[j], b[j]);
    }
  }

  lemma {:induction false} RowsAreRecovered(a: seq<Line>, b: seq<Line>, width: nat)
    requires width > 0 && TableOk(width, a) && TableOk(width, b) && Values(a, width) == Values(b, width)
    ensures a == b
  {
    ValuesAreHeld(a, width);
    ValuesAreHeld(b, width);
    SameFactor(width, |a|, |b|);
    if a != [] {
      var init, last := Values(a[..|a| - 1], width), RenderAll(a[|a| - 1]);
      var init', last' := Values(b[..|b| - 1], width), RenderAll(b[|b| - 1]);
      assert |last| == |last'| == width;
      assert init == Values(a, width)[..|init|] && init' == Values(b, width)[..|init'|];
      assert last == Values(a, width)[|init|..] && last' == Values(b, width)[|init'|..];
      RowsAreRecovered(a[..|a| - 1], b[..|b| - 1], width);
      LineIsRecovered(a[|a| - 1], b[|b| - 1]);
      assert a == a[..|a| - 1] + [a[|a| - 1]] && b == b[..|b| - 1] + [b[|b| - 1]];
    }
  }

  lemma SameFactor(w: nat, m: nat, n: nat)
    requires w > 0 && w * m == w * n
    ensures m == n
  {
    assert w * (m - n) == 0;
  }

  /** Two tables with the same columns have the same stream only if they are equal, row by row and cell by cell. */
  lemma TableStreamIsInjective(columns: seq<Bytes>, a: seq<Line>, b: seq<Line>)
    requires columns != [] && Held(columns) && TableOk(|columns|, a) && TableOk(|columns|, b)
    requires TableStream(columns, a) == TableStream(columns, b)
    ensures a == b
  {
    hide Values, Stream, ReadStream;
    var va, vb := columns + Values(a, |columns|), columns + Values(b, |columns|);
    ValuesAreHeld(a, |columns|);
    ValuesAreHeld(b, |columns|);
    StreamIsDecodable(va);
    StreamIsDecodable(vb);
    assert Values(a, |columns|) == va[|columns|..] && Values(b, |columns|) == vb[|columns|..];
    RowsAreRecovered(a, b, |columns|);
  }

  lemma {:induction false} StreamOneMore(values: seq<Bytes>, value: Bytes)
    ensures Stream(values + [value]) == Stream(values) + Record(value)
  {
    hide Record;
    if values == [] {
      assert values + [value] == [value] && [value][1..] == [];
      assert Record(value) + [] == Record(value) && [] + Record(value) == Record(value);
    } else {
      StreamOneMore(values[1..], value);
      assert (values + [value])[1..] == values[1..] + [value];
      assert Record(values[0]) + (Stream(values[1..]) + Record(value))
             == (Record(values[0]) + Stream(values[1..])) + Record(value);
    }
  }

  /** The digest of a table is the digest of its stream, written column names first. */
  method AggregateTable(columns: seq<Bytes>, rows: seq<Line>, digest: Bytes -> string) returns (d: string)
    requires TableOk(|columns|, rows)
    ensures d == digest(TableStream(columns, rows))
  {
    hide Stream, Record, Values;
    var h: Bytes := [];
    NothingWritten();
    for i := 0 to |columns|
      invariant h == Stream(columns[..i])
    {
      StreamOneMore(columns[..i], columns[i]);
      assert columns[..i + 1] == columns[..i] + [columns[i]];
      h := h + Record(columns[i]);
    }
    assert columns[..|columns|] == columns;
    NoRows(|columns|);
    assert columns + [] == columns && rows[..0] == [];
    for n := 0 to |rows|
      invariant h == Stream(columns + Values(rows[..n], |columns|))
    {
      h := WriteLine(h, columns + Values(rows[..n], |columns|), rows[n]);
      OneMoreRow(columns, rows, n);
    }
    assert rows[..|rows|] == rows;
    return digest(h);
  }

  lemma NothingWritten()
    ensures Stream([]) == []
  {
  }

  lemma NoRows(width: nat)
    ensures Values([], width) == []
  {
  }

  lemma OneMoreRow(columns: seq<Bytes>, rows: seq<Line>, n: nat)
    requires n < |rows| && TableOk(|columns|, rows)
    ensures columns + Values(rows[..n + 1], |columns|) == columns + Values(rows[..n], |columns|) + RenderAll(rows[n])
  {
    hide RenderAll, LineOk;
    assert rows[..n + 1][..n] == rows[..n];
    Assoc(columns, Values(rows[..n], |columns|), RenderAll(rows[n]));
  }

  method WriteLine(before: Bytes, ghost written: seq<Bytes>, line: Line) returns (h: Bytes)
    requires LineOk(line) && before == Stream(written)
    ensures h == Stream(written + RenderAll(line))
  {
    hide Stream, Record, Render;
    h := before;
    ghost var values := RenderAll(line);
    assert written + values[..0] == written;
    for j := 0 to |line|
      invariant h == Stream(written + values[..j])
    {
      StreamOneMore(written + values[..j], values[j]);
      assert written + values[..j + 1] == written + values[..j] + [values[j]];
      h := h + Record(Render(line[j]));
    }
    assert values[..|line|] == values;
  }

  // ---------- the checks ----------

  function Lookup(m: map<string, string>, key: string): string {
    if key in m then m[key] else ""
  }

  /** What the aggregate check accepts. */
  predicate Passes(before: map<string, string>, after: map<string, string>) {
    |before| == |after| && forall t | t in before :: Lookup(after, t) == before[t]
  }

  ghost function Differing(before: map<string, string>, after: map<string, string>, tables: set<string>): set<string> {
    set t | t in tables && t in before && Lookup(after, t) != before[t]
  }

  method AggregateCheck(before: map<string, string>, after: map<string, string>)
    returns (passed: bool, differences: nat)
    ensures passed <==> Passes(before, after)
    ensures differences == |Differing(before, after, before.Keys)| + if |after| > |before| then |after| - |before|
                                                                     else 0
  {
    passed, differences := |before| == |after|, 0;
    var rest := before.Keys;
    while rest != {}
      invariant rest <= before.Keys && differences == |Differing(before, after, before.Keys - rest)|
      invariant passed <==> |before| == |after| && forall t | t in before && t !in rest :: Lookup(after, t) == before[t]
      decreases |rest|
    {
      var table := Pick(rest);
      ghost var seen := Differing(before, after, before.Keys - rest);
      rest := rest - {table};
      if Lookup(after, table) != before[table] {
        assert Differing(before, after, before.Keys - rest) == seen + {table};
        passed, differences := false, differences + 1;
      } else {
        assert Differing(before, after, before.Keys - rest) == seen;
      }
    }
    assert before.Keys - {} == before.Keys;
    if |after| > |before| {
      differences := differences + (|after| - |before|);
    }
  }

  /** With no empty digest the check passes exactly when the two maps are equal. */
  lemma PassMeansEqual(before: map<string, string>, after: map<string, string>)
    requires forall t | t in before :: before[t] != ""
    ensures Passes(before, after) <==> before == after
  {
    if Passes(before, after) {
      assert before.Keys <= after.Keys;
      SubsetSizes(before.Keys, after.Keys);
      assert |before| == |before.Keys| && |after| == |after.Keys|;
    }
  }

  /** An empty digest would pass against a table that is gone. */
  lemma EmptyDigestPasses()
    ensures var before, after := map["a" := ""], map["b" := "x"];
            before != after && Passes(before, after)
  {
    var before, after: map<string, string> := map["a" := ""], map["b" := "x"];
    assert "a" in before && "a" !in after;
  }

  /** A table that can be read, by its columns and rows. */
  datatype Table = Table(columns: seq<Bytes>, rows: seq<Line>)

  predicate Readable(t: Table) {
    t.columns != [] && Held(t.columns) && TableOk(|t.columns|, t.rows)
  }

  predicate AllReadable(tables: map<string, Option<Table>>) {
    forall name | name in tables :: tables[name].Some? ==> Readable(tables[name].value)
  }

  function DigestOf(t: Table, digest: Bytes -> string): string
    requires Readable(t)
  {
    digest(TableStream(t.columns, t.rows))
  }

  /** The map holds the digests of the tables that could be read, and nothing else. */
  ghost predicate DigestsOf(digests: map<string, string>, tables: map<string, Option<Table>>, digest: Bytes -> string)
    requires AllReadable(tables)
  {
    && (forall name :: name in digests <==> name in tables && tables[name].Some?)
    && forall name | name in tables && tables[name].Some? ::
         name in digests && digests[name] == DigestOf(tables[name].value, digest)
  }

  /** A table that cannot be read gets no digest; it is only reported as an error. */
  method CriticalAggregates(tables: map<string, Option<Table>>, digest: Bytes -> string)
    returns (result: map<string, string>)
    requires AllReadable(tables)
    ensures DigestsOf(result, tables, digest)
  {
    hide TableStream, TableOk;
    result := map[];
    var rest := tables.Keys;
    while rest != {}
      invariant rest <= tables.Keys
      invariant forall name :: name in result <==> name in tables && name !in rest && tables[name].Some?
      invariant forall name | name in tables && tables[name].Some? && name !in rest ::
                  name in result && result[name] == DigestOf(tables[name].value, digest)
      decreases |rest|
    {
      var name := Pick(rest);
      rest := rest - {name};
      if tables[name].Some? {
        var d := AggregateTable(tables[name].value.columns, tables[name].value.rows, digest);
        result := result[name := d];
      }
    }
  }

  /** The digest tells the two tables apart; a collision of the hash is the one way this fails. */
  ghost predicate Tells(digest: Bytes -> string, a: Table, b: Table)
    requires Readable(a) && Readable(b)
  {
    DigestOf(a, digest) == DigestOf(b, digest) ==> TableStream(a.columns, a.rows) == TableStream(b.columns, b.rows)
  }

  /** If the check passes, a critical table is read after exactly when it was read before, and unchanged, row by row. */
  lemma PassMeansUnchanged(before: map<string, Option<Table>>, after: map<string, Option<Table>>,
                           digest: Bytes -> string, first: map<string, string>, second: map<string, string>,
                           name: string)
    requires AllReadable(before) && AllReadable(after)
    requires DigestsOf(first, before, digest) && DigestsOf(second, after, digest)
    requires Passes(first, second) && forall n | n in first :: first[n] != ""
    requires name in first && name in second ==>
               before[name].value.columns == after[name].value.columns
               && Tells(digest, before[name].value, after[name].value)
    ensures name in first <==> name in second
    ensures name in first ==> before[name].value.rows == after[name].value.rows
  {
    hide TableStream, TableOk;
    PassMeansEqual(first, second);
    if name in first {
      TableStreamIsInjective(before[name].value.columns, before[name].value.rows, after[name].value.rows);
    }
  }

  // ---------- sequences and files ----------

  ghost function Broken(before: map<string, int>, after: map<string, int>, tables: set<string>): set<string> {
    set t | t in tables && !Preserved(before, after, t)
  }

  /** A sequence present before is present with the same number; one that was absent is absent or at zero. */
  predicate Preserved(before: map<string, int>, after: map<string, int>, t: string) {
    if t in before then t in after && after[t] == before[t] else t in after ==> after[t] == 0
  }

  lemma PreservedMeans(before: map<string, int>, after: map<string, int>, t: string)
    ensures Preserved(before, after, t) <==>
              && (t in before ==> t in after && after[t] == before[t])
              && (t !in before && t in after ==> after[t] == 0)
  {
  }

  lemma BrokenOneMore(before: map<string, int>, after: map<string, int>, done: set<string>, t: string)
    requires t !in done
    ensures var seen := Broken(before, after, done);
            && Broken(before, after, done + {t}) == (if Preserved(before, after, t) then seen else seen + {t})
            && t !in seen
  {
  }

  method SequenceCheck(before: map<string, int>, after: map<string, int>, preserved: set<string>)
    returns (passed: bool, differences: nat)
    ensures passed <==>
              forall t | t in preserved ::
                && (t in before ==> t in after && after[t] == before[t])
                && (t !in before && t in after ==> after[t] == 0)
    ensures differences == |Broken(before, after, preserved)|
  {
    hide Broken, Preserved;
    differences := 0;
    var rest := preserved;
    assert Broken(before, after, preserved - rest) == {} by {
      NothingBroken(before, after, preserved);
    }
    while rest != {}
      invariant rest <= preserved && differences == |Broken(before, after, preserved - rest)|
      decreases |rest|
    {
      var table := Pick(rest);
      ghost var done := preserved - rest;
      BrokenOneMore(before, after, done, table);
      PreservedMeans(before, after, table);
      rest := rest - {table};
      assert preserved - rest == done + {table};
      if table in before && (table !in after || after[table] != before[table]) {
        differences := differences + 1;
      }
      if table !in before && table in after && after[table] != 0 {
        differences := differences + 1;
      }
    }
    assert preserved - {} == preserved;
    passed := differences == 0;
    NoneBroken(before, after, preserved);
  }

  lemma NothingBroken(before: map<string, int>, after: map<string, int>, tables: set<string>)
    ensures Broken(before, after, tables - tables) == {}
  {
  }

  lemma NoneBroken(before: map<string, int>, after: map<string, int>, tables: set<string>)
    ensures |Broken(before, after, tables)| == 0 <==>
              forall t | t in tables ::
                && (t in before ==> t in after && after[t] == before[t])
                && (t !in before && t in after ==> after[t] == 0)
  {
    var broken := Broken(before, after, tables);
    if |broken| == 0 {
      forall t | t in tables
        ensures Preserved(before, after, t)
      {
        assert t !in broken;
      }
    } else {
      var t := SomeElement(broken);
      assert t in tables;
    }
  }

  datatype FileChecksum = FileChecksum(path: string, sum: string)

  function Mismatches(before: seq<FileChecksum>, after: seq<FileChecksum>, n: nat): (c: nat)
    requires n <= |before| && n <= |after|
    ensures c == 0 <==> before[..n] == after[..n]
  {
    if n == 0 then 0
    else
      var c := Mismatches(before, after, n - 1);
      assert before[..n] == before[..n - 1] + [before[n - 1]] && after[..n] == after[..n - 1] + [after[n - 1]];
      assert before[..n] == after[..n] ==>
               before[..n][..n - 1] == after[..n][..n - 1] && before[..n][n - 1] == after[..n][n - 1];
      c + if before[n - 1] == after[n - 1] then 0 else 1
  }

  /** The positions before `n` at which the two lists differ. */
  ghost function Unequal(before: seq<FileChecksum>, after: seq<FileChecksum>, n: nat): set<nat>
    requires n <= |before| && n <= |after|
  {
    set i: nat | i < n && before[i] != after[i]
  }

  lemma NoneUnequal(before: seq<FileChecksum>, after: seq<FileChecksum>)
    ensures |Unequal(before, after, 0)| == 0
  {
  }

  lemma UnequalOneMore(before: seq<FileChecksum>, after: seq<FileChecksum>, n: nat)
    requires n < |before| && n < |after|
    ensures |Unequal(before, after, n + 1)|
            == |Unequal(before, after, n)| + if before[n] == after[n] then 0 else 1
  {
    assert Unequal(before, after, n + 1) == Unequal(before, after, n) + if before[n] == after[n] then {} else {n};
  }

  /** The files are unchanged exactly when the two lists are equal, in order. */
  method FileChecksumCheck(before: seq<FileChecksum>, after: seq<FileChecksum>) returns (passed: bool, differences: nat)
    ensures passed <==> before == after
    ensures passed <==> differences == 0
    ensures var limit := if |before| < |after| then |before| else |after|;
            differences == |before| + |after| - limit - limit + |Unequal(before, after, limit)|
  {
    hide Unequal;
    NoneUnequal(before, after);
    differences := 0;
    if |before| != |after| {
      differences := if |before| > |after| then |before| - |after| else |after| - |before|;
    }
    ghost var extra := differences;
    var limit := if |before| < |after| then |before| else |after|;
    for i := 0 to limit
      invariant differences == extra + Mismatches(before, after, i)
      invariant Mismatches(before, after, i) == |Unequal(before, after, i)|
    {
      UnequalOneMore(before, after, i);
      if before[i] != after[i] {
        differences := differences + 1;
      }
    }
    assert before[..|before|] == before && after[..|after|] == after;
    passed := differences == 0;
  }
}
