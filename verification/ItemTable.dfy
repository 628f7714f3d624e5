/** The item table of an invoice: a header, rows that may run over pages, and a total, above a fixed bottom line. */
module ItemTable {
  import T = Text
  const MARGIN: real := 11.0
  const BOTTOM: real := 262.0
  const HEADER: real := 8.0
  const LINE: real := 5.0
  const PADDING: real := 4.0
  const TOTAL: real := 12.0

  /** One row: the wrapped lines of each of its cells. */
  type Row = seq<seq<string>>

  /** One line of one cell, drawn at a height. */
  datatype Text = Text(column: nat, line: nat, text: string, y: real)

  datatype Op =
    | PageBreak
    | Header(y: real)
    | Slice(y: real, height: real, row: nat, first: nat, end: nat, texts: seq<Text>)
    | Total(y: real)

  function Bottom(op: Op): real {
    match op
    case PageBreak => MARGIN
    case Header(y) => y + HEADER
    case Slice(y, height, _, _, _, _) => y + height
    case Total(y) => y + TOTAL
  }

  function Height(lines: int): real {
    lines as real * LINE + PADDING
  }

  /** The lines of the longest cell, at least one. */
  function Count(row: Row): (c: nat)
    ensures c >= 1 && forall cell | cell in row :: |cell| <= c
  {
    if row == [] then 1
    else
      var rest := Count(row[..|row| - 1]);
      if |row[|row| - 1]| > rest then |row[|row| - 1]| else rest
  }

  /** A row is no longer than its longest cell, unless no cell has a line at all. */
  lemma {:induction false} CountIsReached(row: Row)
    ensures (exists cell :: cell in row && |cell| == Count(row))
            || (Count(row) == 1 && forall cell | cell in row :: cell == [])
  {
    if row != [] {
      var init, last := row[..|row| - 1], row[|row| - 1];
      CountIsReached(init);
      assert row == init + [last];
      assert last in row && forall cell | cell in init :: cell in row;
    }
  }

  /** Conversion of a floating-point number to an integer drops the fraction. */
  function Truncated(r: real): int {
    if r >= 0.0 then r.Floor else -((-r).Floor)
  }

  // ---------- what a drawn table has to satisfy ----------

  /**
   * Inside the printable band, of the right height, holding exactly its lines; whole if the row has at most 47; and cut
   * short only where not one line more would fit.
   */
  ghost predicate Fits(op: Op, rows: seq<Row>) {
    match op
    case PageBreak => true
    case Header(y) => MARGIN <= y && y + HEADER + LINE + PADDING <= BOTTOM
    case Total(y) => MARGIN <= y && y + TOTAL <= BOTTOM
    case Slice(y, height, row, first, end, texts) =>
      && MARGIN + HEADER <= y && y + height <= BOTTOM && height == Height(end - first)
      && row < |rows| && first < end <= Count(rows[row])
      && (Count(rows[row]) <= 47 ==> first == 0 && end == Count(rows[row]))
      && (end < Count(rows[row]) ==> y + Height(end - first + 1) > BOTTOM)
      && Shows(texts, rows[row], first, end, y)
  }

  /** The texts are the lines `first..end` of every cell, each once and inside its slice. */
  ghost predicate Shows(texts: seq<Text>, row: Row, first: nat, end: nat, y: real) {
    && (forall t | t in texts :: t.column < |row| && first <= t.line < end && t.line < |row[t.column]|
                                 && t.text == row[t.column][t.line] && Placed(t, first, end, y))
    && (forall c, n | 0 <= c < |row| && first <= n < end && n < |row[c]| ::
        Text(c, n, row[c][n], LineTop(n, first, y)) in texts)
    && (forall i, j :: 0 <= i < j < |texts| ==> texts[i] != texts[j])
  }

  function LineTop(n: nat, first: nat, y: real): real {
    y + 2.0 + (n - first) as real * LINE
  }

  predicate Placed(t: Text, first: nat, end: nat, y: real)
    requires first <= t.line < end
  {
    t.y == LineTop(t.line, first, y) && y <= t.y && t.y + LINE <= y + Height(end - first)
  }

  /** The first line stands two units below the top of its slice, every other one line below the one before. */
  lemma LinesAreSpaced(n: nat, first: nat, y: real)
    requires first <= n
    ensures LineTop(first, first, y) == y + 2.0 && LineTop(n + 1, first, y) == LineTop(n, first, y) + LINE
  {
  }

  /** Each line adds one line's height to a row; a row has its padding besides. */
  lemma HeightsAdd(lines: nat)
    ensures Height(0) == PADDING && Height(lines + 1) == Height(lines) + LINE
  {
  }

  /**
   * A page break is followed by the header or the total at the top margin, and a header stands nowhere else; everything
   * else starts where the previous one ended; a row stands right under the header or another row; and nothing follows
   * the total.
   */
  predicate Follows(before: Op, op: Op) {
    if before.Total? then false
    else if before.PageBreak? then (op.Header? || op.Total?) && op.y == MARGIN
    else op.PageBreak? || (!op.Header? && op.y == Bottom(before) && (op.Slice? ==> before.Header? || before.Slice?))
  }

  /**
   * A page break after something that ends at `bottom` happens only if what comes next would not have fitted there: the
   * total, a whole row, or one more line of a row already begun. The header on the new page is followed by that row.
   */
  predicate Needed(bottom: real, rows: seq<Row>, next: Op, after: Op) {
    && (next.Total? ==> bottom + TOTAL > BOTTOM)
    && (next.Header? ==>
          && after.Slice? && after.row < |rows|
          && bottom + (if after.first == 0 then Height(Count(rows[after.row])) else Height(1)) > BOTTOM)
  }

  /** The break at position `i`, as far as the operations after it are known. */
  predicate BreakIsNeeded(ops: seq<Op>, rows: seq<Row>, i: int)
    requires 0 < i < |ops|
  {
    ops[i].PageBreak? ==>
      && (i + 1 < |ops| && ops[i + 1].Total? ==> Needed(Bottom(ops[i - 1]), rows, ops[i + 1], ops[i + 1]))
      && (i + 2 < |ops| ==> Needed(Bottom(ops[i - 1]), rows, ops[i + 1], ops[i + 2]))
  }

  ghost predicate Sound(ops: seq<Op>, rows: seq<Row>) {
    && (forall i | 0 <= i < |ops| :: Fits(ops[i], rows))
    && (forall i | 0 < i < |ops| :: Follows(ops[i - 1], ops[i]))
    && (forall i | 0 < i < |ops| :: BreakIsNeeded(ops, rows, i))
  }

  /** In a finished table every page break was needed. */
  lemma EveryBreakIsNeeded(ops: seq<Op>, rows: seq<Row>, i: nat)
    requires Sound(ops, rows) && ops != [] && ops[|ops| - 1].Total? && 0 < i < |ops| && ops[i].PageBreak?
    ensures i + 1 < |ops| && (ops[i + 1].Total? || (ops[i + 1].Header? && i + 2 < |ops| && ops[i + 2].Slice?))
    ensures Needed(Bottom(ops[i - 1]), rows, ops[i + 1], if ops[i + 1].Total? then ops[i + 1] else ops[i + 2])
  {
    assert BreakIsNeeded(ops, rows, i);
    assert Follows(ops[i], ops[i + 1]);
    if ops[i + 1].Header? {
      assert Follows(ops[i + 1], ops[i + 2]);
    }
  }

  /** Nothing reaches below the bottom line, so no cell ever triggers a page break of its own. */
  lemma NothingReachesBelow(ops: seq<Op>, rows: seq<Row>, i: nat)
    requires Sound(ops, rows) && i < |ops|
    ensures Bottom(ops[i]) <= BOTTOM
    ensures ops[i].Slice? ==> forall t | t in ops[i].texts :: MARGIN + HEADER <= t.y && t.y + LINE <= BOTTOM
  {
    assert Fits(ops[i], rows);
  }

  /** The lines `a..b` of one row. */
  function Run(row: nat, a: nat, b: nat): seq<(nat, nat)>
    decreases b
  {
    if a >= b then [] else Run(row, a, b - 1) + [(row, b - 1)]
  }

  /** The row lines a sequence of operations draws, in order. */
  function Drawn(ops: seq<Op>): seq<(nat, nat)> {
    if ops == [] then []
    else
      var last := ops[|ops| - 1];
      Drawn(ops[..|ops| - 1]) + if last.Slice? then Run(last.row, last.first, last.end) else []
  }

  /** Every line of the first `n` rows, in order. */
  function AllLines(rows: seq<Row>, n: nat): seq<(nat, nat)>
    requires n <= |rows|
  {
    if n == 0 then [] else AllLines(rows, n - 1) + Run(n - 1, 0, Count(rows[n - 1]))
  }

  lemma {:induction false} RunsJoin(row: nat, a: nat, b: nat, c: nat)
    requires a <= b <= c
    ensures Run(row, a, b) + Run(row, b, c) == Run(row, a, c)
    decreases c
  {
    if b < c {
      RunsJoin(row, a, b, c - 1);
    }
  }

  lemma DrawnOneMore(ops: seq<Op>, op: Op)
    ensures Drawn(ops + [op]) == Drawn(ops) + if op.Slice? then Run(op.row, op.first, op.end) else []
  {
    assert (ops + [op])[..|ops|] == ops;
  }

  /** The break that `op` comes after, if any, was needed for it. */
  predicate Justifies(ops: seq<Op>, rows: seq<Row>, op: Op) {
    var n := |ops|;
    && (n >= 2 && ops[n - 1].PageBreak? && op.Total? ==> Needed(Bottom(ops[n - 2]), rows, op, op))
    && (n >= 3 && ops[n - 2].PageBreak? ==> Needed(Bottom(ops[n - 3]), rows, ops[n - 1], op))
  }

  lemma SoundOneMore(ops: seq<Op>, op: Op, rows: seq<Row>)
    requires Sound(ops, rows) && Fits(op, rows) && (ops != [] ==> Follows(ops[|ops| - 1], op))
    requires Justifies(ops, rows, op)
    ensures Sound(ops + [op], rows)
  {
    hide Fits, Follows, Needed;
    var more := ops + [op];
    forall i | 0 < i < |more|
      ensures BreakIsNeeded(more, rows, i)
    {
      if i < |ops| {
        assert BreakIsNeeded(ops, rows, i);
      }
    }
  }

  /** Whatever is drawn next stands on this page by right: no page was begun for it. */
  predicate Calm(ops: seq<Op>) {
    ops != [] && (ops[|ops| - 1].Slice? || |ops| <= 2)
  }

  lemma CalmJustifies(ops: seq<Op>, rows: seq<Row>, op: Op)
    requires Sound(ops, rows) && Calm(ops) && !ops[|ops| - 1].PageBreak?
    ensures Justifies(ops, rows, op)
  {
    if |ops| >= 2 {
      assert Follows(ops[|ops| - 2], ops[|ops| - 1]);
    }
  }

  /** What follows a break after a calm page; the total only if it did not fit. */
  lemma BreakIsJustified(ops: seq<Op>, rows: seq<Row>)
    requires Sound(ops, rows) && Calm(ops) && !ops[|ops| - 1].PageBreak?
    ensures forall y :: Justifies(ops + [PageBreak], rows, Header(y))
    ensures forall y | Bottom(ops[|ops| - 1]) + TOTAL > BOTTOM :: Justifies(ops + [PageBreak], rows, Total(y))
  {
    if |ops| >= 2 {
      assert Follows(ops[|ops| - 2], ops[|ops| - 1]);
    }
  }

  /** The page on which drawing stands, if begun just now, was needed for line `first` of row `index`. */
  predicate Earned(ops: seq<Op>, rows: seq<Row>, index: nat, first: nat)
    requires index < |rows|
  {
    |ops| >= 3 && ops[|ops| - 2].PageBreak? ==>
      Bottom(ops[|ops| - 3]) + (if first == 0 then Height(Count(rows[index])) else Height(1)) > BOTTOM
  }

  lemma CalmIsEarned(ops: seq<Op>, rows: seq<Row>, index: nat, first: nat)
    requires Sound(ops, rows) && Calm(ops) && index < |rows|
    ensures Earned(ops, rows, index, first)
  {
    if |ops| >= 3 {
      assert Follows(ops[|ops| - 2], ops[|ops| - 1]);
    }
  }

  lemma EarnedJustifies(ops: seq<Op>, rows: seq<Row>, op: Op)
    requires op.Slice? && op.row < |rows| && Earned(ops, rows, op.row, op.first)
    requires ops != [] && !ops[|ops| - 1].Total?
    ensures Justifies(ops, rows, op)
  {
  }

  /** Where a run of row lines ends, every one of its members is a line of that row. */
  lemma {:induction false} RunHolds(row: nat, a: nat, b: nat)
    ensures forall p :: p in Run(row, a, b) <==> p.0 == row && a <= p.1 < b
    decreases b
  {
    if a < b {
      RunHolds(row, a, b - 1);
    }
  }

  lemma {:induction false} AllLinesHold(rows: seq<Row>, n: nat)
    requires n <= |rows|
    ensures forall p :: p in AllLines(rows, n) <==> p.0 < n && p.1 < Count(rows[p.0])
  {
    hide Count;
    if n > 0 {
      AllLinesHold(rows, n - 1);
      RunHolds(n - 1, 0, Count(rows[n - 1]));
    }
  }

  // ---------- the texts of a slice ----------

  /** Lines `first..n` of one cell. */
  function CellTexts(cell: seq<string>, c: nat, first: nat, n: nat, y: real): (texts: seq<Text>)
    requires n <= |cell| || n <= first
    ensures forall t | t in texts :: t.column == c && first <= t.line < n && t.text == cell[t.line]
                                     && t.y == LineTop(t.line, first, y)
    ensures forall k | first <= k < n :: Text(c, k, cell[k], LineTop(k, first, y)) in texts
    ensures forall i, j :: 0 <= i < j < |texts| ==> texts[i] != texts[j]
  {
    if n <= first then []
    else CellTexts(cell, c, first, n - 1, y) + [Text(c, n - 1, cell[n - 1], LineTop(n - 1, first, y))]
  }

  lemma NoCellShowsNothing(first: nat, end: nat, y: real)
    ensures Shows([], [], first, end, y)
  {
  }

  lemma ShowsOneCellMore(texts: seq<Text>, row: Row, cell: seq<string>, first: nat, end: nat, y: real, stop: nat)
    requires Shows(texts, row, first, end, y) && first < end && stop == if end < |cell| then end else |cell|
    ensures Shows(texts + CellTexts(cell, |row|, first, stop, y), row + [cell], first, end, y)
  {
    hide CellTexts;
    var more := CellTexts(cell, |row|, first, stop, y);
    forall t | t in more
      ensures Placed(t, first, end, y)
    {
    }
    forall c, n | 0 <= c < |row + [cell]| && first <= n < end && n < |(row + [cell])[c]|
      ensures Text(c, n, (row + [cell])[c][n], LineTop(n, first, y)) in texts + more
    {
      if c == |row| {
        assert Text(c, n, cell[n], LineTop(n, first, y)) in more;
      }
    }
  }

  // ---------- drawing ----------

  class Pdf {
    var ops: seq<Op>

    constructor ()
      ensures ops == []
    {
      ops := [];
    }

    /** Room for `height`, on a new page if it is not left on this one. */
    method PageRoom(y: real, height: real) returns (top: real)
      modifies this
      ensures if y + height > BOTTOM then top == MARGIN && ops == old(ops) + [PageBreak]
              else top == y && ops == old(ops)
    {
      if y + height > BOTTOM {
        ops := ops + [PageBreak];
        return MARGIN;
      }
      return y;
    }

    /** A header opens the table or a page, and leaves room for one line. */
    method DrawHeader(y: real, rows: seq<Row>) returns (below: real)
      requires Sound(ops, rows) && Fits(Header(y), rows) && (ops != [] ==> Follows(ops[|ops| - 1], Header(y)))
      requires Justifies(ops, rows, Header(y))
      modifies this
      ensures ops == old(ops) + [Header(y)] && below == y + HEADER
      ensures Sound(ops, rows) && Drawn(ops) == Drawn(old(ops))
    {
      SoundOneMore(ops, Header(y), rows);
      DrawnOneMore(ops, Header(y));
      ops := ops + [Header(y)];
      return y + HEADER;
    }

    /** Drawing stands at `y`, under the header or a row. */
    ghost predicate Ready(y: real, rows: seq<Row>)
      reads this
    {
      && Sound(ops, rows) && ops != [] && (ops[|ops| - 1].Header? || ops[|ops| - 1].Slice?)
      && y == Bottom(ops[|ops| - 1]) && MARGIN + HEADER <= y <= BOTTOM
    }

    /** A new page with its header. */
    method Turn(y: real, height: real, rows: seq<Row>) returns (below: real)
      requires Ready(y, rows) && y + height > BOTTOM && Calm(ops)
      modifies this
      ensures Ready(below, rows) && below == MARGIN + HEADER && Drawn(ops) == Drawn(old(ops)) && old(ops) <= ops
      ensures |ops| >= 3 && ops[|ops| - 2].PageBreak? && Bottom(ops[|ops| - 3]) == y
    {
      hide Drawn, Justifies, BreakIsNeeded, Shows, Count, Needed;
      CalmJustifies(ops, rows, PageBreak);
      SoundOneMore(ops, PageBreak, rows);
      DrawnOneMore(ops, PageBreak);
      BreakIsJustified(ops, rows);
      var top := PageRoom(y, height);
      below := DrawHeader(top, rows);
    }

    /** The texts of one slice, cell by cell and line by line. */
    method SliceTexts(row: Row, first: nat, end: nat, y: real) returns (texts: seq<Text>)
      requires first < end
      ensures Shows(texts, row, first, end, y)
    {
      hide Shows;
      texts := [];
      assert Shows(texts, row[..0], first, end, y) by {
        NoCellShowsNothing(first, end, y);
        assert row[..0] == [];
      }
      for c := 0 to |row|
        invariant Shows(texts, row[..c], first, end, y)
      {
        var stop := if end < |row[c]| then end else |row[c]|;
        ghost var done := texts;
        T.Nothing(texts);
        if first < stop {
          for n := first to stop
            invariant texts == done + CellTexts(row[c], c, first, n, y)
          {
            T.Assoc(done, CellTexts(row[c], c, first, n, y), [Text(c, n, row[c][n], LineTop(n, first, y))]);
            texts := texts + [Text(c, n, row[c][n], LineTop(n, first, y))];
          }
        }
        assert row[..c + 1] == row[..c] + [row[c]];
        ShowsOneCellMore(done, row[..c], row[c], first, end, y, stop);
      }
      assert row[..|row|] == row;
    }

    /** One row, over as many pages as it needs. */
    method DrawRow(rows: seq<Row>, index: nat, start: real) returns (y: real)
      requires index < |rows| && Ready(start, rows) && Calm(ops)
      modifies this
      ensures Ready(y, rows) && Calm(ops) && old(ops) <= ops
      ensures Drawn(ops) == Drawn(old(ops)) + Run(index, 0, Count(rows[index]))
    {
      hide Sound, Drawn, Fits, Run, Follows, Truncated, Bottom;
      y := start;
      var count := Count(rows[index]);
      var h := Height(count);
      CalmIsEarned(ops, rows, index, 0);
      if y + h > BOTTOM && y > MARGIN + HEADER {
        y := Turn(y, h, rows);
      }
      var offset := 0;
      RunsJoin(index, 0, 0, 0);
      while offset < count
        invariant offset <= count && Ready(y, rows) && old(ops) <= ops
                  && Drawn(ops) == Drawn(old(ops)) + Run(index, 0, offset)
        invariant offset == 0 ==> y + Height(count) <= BOTTOM || y == MARGIN + HEADER
        invariant 0 < offset < count ==> count > 47
        invariant Earned(ops, rows, index, offset) && (offset > 0 && y != MARGIN + HEADER ==> Calm(ops))
        invariant offset == count ==> Calm(ops)
        decreases count - offset, if y + LINE + PADDING > BOTTOM then 1 else 0
      {
        var fit := Truncated((BOTTOM - y - PADDING) / LINE);
        FitIsExact(y, fit);
        assert Height(1) == LINE + PADDING;
        if fit < 1 {
          y := Turn(y, LINE + PADDING, rows);
        } else {
          var end := if offset + fit < count then offset + fit else count;
          y := DrawSlice(rows, index, offset, end, y);
          CalmIsEarned(ops, rows, index, end);
          RunsJoin(index, 0, offset, end);
          offset := end;
        }
      }
    }

    method DrawSlice(rows: seq<Row>, index: nat, offset: nat, end: nat, y: real) returns (below: real)
      requires index < |rows| && Ready(y, rows) && offset < end <= Count(rows[index])
      requires y + Height(end - offset) <= BOTTOM
               && (end < Count(rows[index]) ==> y + Height(end - offset + 1) > BOTTOM)
      requires Count(rows[index]) <= 47 ==> offset == 0 && end == Count(rows[index])
      requires Earned(ops, rows, index, offset)
      modifies this
      ensures Ready(below, rows) && below == y + Height(end - offset) && old(ops) <= ops && Calm(ops)
      ensures Drawn(ops) == Drawn(old(ops)) + Run(index, offset, end)
    {
      hide Justifies, Earned;
      var texts := SliceTexts(rows[index], offset, end, y);
      var op := Slice(y, Height(end - offset), index, offset, end, texts);
      EarnedJustifies(ops, rows, op);
      SoundOneMore(ops, op, rows);
      DrawnOneMore(ops, op);
      ops := ops + [op];
      return y + Height(end - offset);
    }

    /**
     * The table draws every line of every row exactly once and in order, and everything it draws satisfies the rules
     * above; it ends with the total.
     */
    method DrawItems(rows: seq<Row>, start: real) returns (y: real)
      requires ops == [] && start >= MARGIN
      modifies this
      ensures Sound(ops, rows) && Drawn(ops) == AllLines(rows, |rows|)
      ensures ops != [] && ops[|ops| - 1] == Total(y - TOTAL) && y <= BOTTOM
      ensures ops[0] == if start + 20.0 > BOTTOM then PageBreak else Header(start)
    {
      hide Sound, Drawn, Fits, Run, Follows, Pdf.Ready, Calm, Count, Bottom, Needed, BreakIsNeeded, Shows;
      y := Begin(rows, start);
      ghost var first := ops[0];
      for n := 0 to |rows|
        invariant Ready(y, rows) && Calm(ops) && Drawn(ops) == AllLines(rows, n) && ops != [] && ops[0] == first
      {
        y := DrawRow(rows, n, y);
      }
      y := Finish(rows, y);
    }

    method Begin(rows: seq<Row>, start: real) returns (y: real)
      requires ops == [] && start >= MARGIN
      modifies this
      ensures Ready(y, rows) && Calm(ops) && Drawn(ops) == []
      ensures ops != [] && ops[0] == if start + 20.0 > BOTTOM then PageBreak else Header(start)
    {
      y := PageRoom(start, 20.0);
      y := DrawHeader(y, rows);
    }

    /** The total, on a page with room for it. */
    method Finish(rows: seq<Row>, start: real) returns (y: real)
      requires Ready(start, rows) && Calm(ops)
      modifies this
      ensures Sound(ops, rows) && Drawn(ops) == Drawn(old(ops)) && old(ops) <= ops && ops != []
      ensures ops[|ops| - 1] == Total(y - TOTAL) && y <= BOTTOM
    {
      hide Justifies, Drawn, BreakIsNeeded, Shows, Count, Needed, Calm;
      CalmJustifies(ops, rows, PageBreak);
      SoundOneMore(ops, PageBreak, rows);
      DrawnOneMore(ops, PageBreak);
      BreakIsJustified(ops, rows);
      CalmJustifies(ops, rows, Total(start));
      y := PageRoom(start, TOTAL);
      SoundOneMore(ops, Total(y), rows);
      DrawnOneMore(ops, Total(y));
      ops := ops + [Total(y)];
      return y + TOTAL;
    }
  }

  /** The number of lines said to fit is the largest that does. */
  lemma FitIsExact(y: real, fit: int)
    requires y <= BOTTOM && fit == Truncated((BOTTOM - y - PADDING) / LINE)
    ensures forall k: int | k >= 1 :: k <= fit <==> y + Height(k) <= BOTTOM
  {
    var room := (BOTTOM - y - PADDING) / LINE;
    forall k: int | k >= 1
      ensures k <= fit <==> y + Height(k) <= BOTTOM
    {
      assert y + Height(k) <= BOTTOM <==> k as real <= room;
    }
  }
}
