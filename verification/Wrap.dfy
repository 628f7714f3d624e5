/** Breaking text into lines of measured width, for any measure, or of bounded length. */
module Wrap {
  import opened Text

  // ---------- words and paragraphs ----------

  /** The runes of a text that are not white space. */
  function Ink(s: string): string {
    if s == "" then "" else (if IsSpace(s[0]) then "" else [s[0]]) + Ink(s[1..])
  }

  predicate Solid(w: string) {
    w != "" && forall c | c in w :: !IsSpace(c)
  }

  predicate AllSolid(words: seq<string>) {
    forall i | 0 <= i < |words| :: Solid(words[i])
  }

  function WordEnd(s: string): (k: nat)
    ensures k <= |s| && (k < |s| ==> IsSpace(s[k])) && forall i | 0 <= i < k :: !IsSpace(s[i])
  {
    if s == "" || IsSpace(s[0]) then 0 else 1 + WordEnd(s[1..])
  }

  /** The maximal runs of non-space runes. */
  function Fields(s: string): (words: seq<string>)
    ensures AllSolid(words)
    decreases |s|
  {
    if s == "" then []
    else if IsSpace(s[0]) then Fields(s[1..])
    else [s[..WordEnd(s)]] + Fields(s[WordEnd(s)..])
  }

  /** The stretches between line feeds. */
  function Paragraphs(s: string): (ps: seq<string>)
    ensures |ps| >= 1
  {
    if s == "" then [""]
    else
      var rest := Paragraphs(s[1..]);
      if s[0] == '\n' then [""] + rest else [[s[0]] + rest[0]] + rest[1..]
  }

  // ---------- what stands between words and paragraphs ----------

  /** Gaps and words in turn. */
  function Weave(gaps: seq<string>, words: seq<string>): string
    requires |gaps| == |words| + 1
  {
    if words == [] then gaps[0] else gaps[0] + words[0] + Weave(gaps[1..], words[1..])
  }

  /** The text is the words in order, with white space around them and never none between two of them. */
  ghost predicate Separates(gaps: seq<string>, words: seq<string>, s: string) {
    && |gaps| == |words| + 1 && s == Weave(gaps, words)
    && (forall i | 0 <= i < |gaps| :: AllSpace(gaps[i])) && (forall i | 0 < i < |words| :: gaps[i] != "")
  }

  lemma {:induction false} FieldsAreSeparated(s: string) returns (gaps: seq<string>)
    ensures Separates(gaps, Fields(s), s) && AllSolid(Fields(s))
    decreases |s|
  {
    hide IsSpace, Fields, WordEnd;
    if s == "" {
      gaps := [""];
      FieldsTurn(s);
    } else if IsSpace(s[0]) {
      var rest := FieldsAreSeparated(s[1..]);
      FieldsTurn(s);
      gaps := [[s[0]] + rest[0]] + rest[1..];
      WiderGap(rest, Fields(s), s[0]);
      assert s == [s[0]] + s[1..];
    } else {
      var k := WordEnd(s);
      FieldsTurn(s);
      var rest := FieldsAreSeparated(s[k..]);
      gaps := [""] + rest;
      assert gaps[1..] == rest && Fields(s)[1..] == Fields(s[k..]);
      assert s == "" + s[..k] + s[k..];
      if Fields(s[k..]) != [] && rest[0] == "" {
        WeaveStarts(rest, Fields(s[k..]));
        assert false;
      }
    }
  }

  lemma FieldsTurn(s: string)
    ensures s == "" ==> Fields(s) == []
    ensures s != "" && IsSpace(s[0]) ==> Fields(s) == Fields(s[1..])
    ensures s != "" && !IsSpace(s[0]) ==> var k := WordEnd(s);
                                          && 0 < k <= |s| && Fields(s) == [s[..k]] + Fields(s[k..])
                                          && (s[k..] != "" ==> IsSpace(s[k..][0]))
    ensures Fields("") == []
  {
  }

  lemma WiderGap(gaps: seq<string>, words: seq<string>, c: char)
    requires |gaps| == |words| + 1
    ensures Weave([[c] + gaps[0]] + gaps[1..], words) == [c] + Weave(gaps, words)
  {
    var wider := [[c] + gaps[0]] + gaps[1..];
    assert wider[1..] == gaps[1..];
    if words != [] {
      assert wider[0] + words[0] + Weave(gaps[1..], words[1..])
          == [c] + (gaps[0] + words[0] + Weave(gaps[1..], words[1..]));
    }
  }

  /** Without a first gap the text begins with the first word. */
  lemma WeaveStarts(gaps: seq<string>, words: seq<string>)
    requires |gaps| == |words| + 1 && words != [] && AllSolid(words) && gaps[0] == ""
    ensures Weave(gaps, words) != "" && !IsSpace(Weave(gaps, words)[0])
  {
    assert Solid(words[0]) && words[0][0] in words[0];
  }

  /** The paragraphs with a line feed between each two. */
  function Rejoin(ps: seq<string>): string {
    if ps == [] then "" else if |ps| == 1 then ps[0] else ps[0] + "\n" + Rejoin(ps[1..])
  }

  /** Paragraphs are cut at the line feeds and nowhere else. */
  lemma {:induction false} ParagraphsRejoin(s: string)
    ensures Rejoin(Paragraphs(s)) == s && forall i | 0 <= i < |Paragraphs(s)| :: '\n' !in Paragraphs(s)[i]
  {
    if s != "" {
      ParagraphsRejoin(s[1..]);
      var rest, ps := Paragraphs(s[1..]), Paragraphs(s);
      assert s == [s[0]] + s[1..];
      if s[0] == '\n' {
        assert ps[1..] == rest && "" + "\n" + Rejoin(rest) == s;
      } else {
        assert ps[1..] == rest[1..];
        if |rest| > 1 {
          assert ps[0] + "\n" + Rejoin(rest[1..]) == [s[0]] + (rest[0] + "\n" + Rejoin(rest[1..]));
        }
      }
    }
  }

  function Concat(ws: seq<string>): string {
    if ws == [] then "" else ws[0] + Concat(ws[1..])
  }

  /** The inks of a list of texts, one after the other. */
  function InkOf(texts: seq<string>): string {
    if texts == [] then "" else Ink(texts[0]) + InkOf(texts[1..])
  }

  lemma {:induction false} InkOfConcat(a: string, b: string)
    ensures Ink(a + b) == Ink(a) + Ink(b)
  {
    hide IsSpace;
    if a == "" {
      Nothing(b);
      Nothing(Ink(b));
    } else {
      InkOfConcat(a[1..], b);
      TailOfMore(a, b);
      Assoc(if IsSpace(a[0]) then "" else [a[0]], Ink(a[1..]), Ink(b));
    }
  }

  lemma {:induction false} InkOfMore(a: seq<string>, b: seq<string>)
    ensures InkOf(a + b) == InkOf(a) + InkOf(b)
  {
    hide Ink;
    if a == [] {
      Nothing(b);
      Nothing(InkOf(b));
    } else {
      InkOfMore(a[1..], b);
      TailOfMore(a, b);
      Assoc(Ink(a[0]), InkOf(a[1..]), InkOf(b));
    }
  }

  lemma {:induction false} BlankInk(s: string)
    requires forall c | c in s :: IsSpace(c)
    ensures Ink(s) == ""
  {
    if s != "" {
      BlankInk(s[1..]);
    }
  }

  lemma {:induction false} FieldsInk(s: string)
    ensures InkOf(Fields(s)) == Ink(s)
    decreases |s|
  {
    if s == "" {
    } else if IsSpace(s[0]) {
      FieldsInk(s[1..]);
    } else {
      var k := WordEnd(s);
      FieldsInk(s[k..]);
      InkOfConcat(s[..k], s[k..]);
      assert s == s[..k] + s[k..];
    }
  }

  lemma {:induction false} ParagraphsInk(s: string)
    ensures InkOf(Paragraphs(s)) == Ink(s)
  {
    if s != "" {
      ParagraphsInk(s[1..]);
      var rest := Paragraphs(s[1..]);
      assert Paragraphs(s)[1..] == if s[0] == '\n' then rest else rest[1..];
      InkOfConcat([s[0]], rest[0]);
      assert Ink([s[0]]) == if IsSpace(s[0]) then "" else [s[0]];
    }
  }

  lemma TrimInk(s: string)
    ensures Ink(TrimSpace(s)) == Ink(s)
  {
    hide Ink, TrimLeft, TrimRight;
    var l := TrimLeft(s);
    var r := TrimRight(l);
    var cut, tail := s[..|s| - |l|], l[|r|..];
    BlankInk(cut);
    BlankInk(tail);
    InkOfConcat(cut, l);
    InkOfConcat(r, tail);
    assert s == cut + l && l == r + tail;
  }

  // ---------- the layout of a paragraph ----------

  /** Pieces standing on one line, a blank between them. */
  function Join(pieces: seq<string>): string {
    if pieces == [] then ""
    else if |pieces| == 1 then pieces[0]
    else Join(pieces[..|pieces| - 1]) + " " + pieces[|pieces| - 1]
  }

  /** A word cut greedily, rune by rune; `chunk` is what was gathered before. */
  function Chunks(w: string, chunk: string, width: string -> real, limit: real): (cs: seq<string>)
    ensures w != "" || chunk != "" ==> cs != []
    decreases |w|
  {
    if w == "" then if chunk == "" then [] else [chunk]
    else if chunk != "" && width(chunk + [w[0]]) > limit then [chunk] + Chunks(w[1..], [w[0]], width, limit)
    else Chunks(w[1..], chunk + [w[0]], width, limit)
  }

  function Singles(pieces: seq<string>): (lines: seq<seq<string>>)
    ensures |lines| == |pieces| && forall i | 0 <= i < |lines| :: lines[i] == [pieces[i]]
  {
    seq(|pieces|, i requires 0 <= i < |pieces| => [pieces[i]])
  }

  function Flush(current: seq<string>): seq<seq<string>> {
    if current == [] then [] else [current]
  }

  /** The lines of the remaining words, each a list of pieces, after a line begun with `current`. */
  function Place(words: seq<string>, current: seq<string>, width: string -> real, limit: real): seq<seq<string>>
    requires AllSolid(words)
    decreases |words|
  {
    if words == [] then Flush(current)
    else
      var w, rest := words[0], words[1..];
      if width(Join(current + [w])) <= limit then Place(rest, current + [w], width, limit)
      else if width(w) <= limit then Flush(current) + Place(rest, [w], width, limit)
      else
        var cs := Chunks(w, "", width, limit);
        Flush(current) + Singles(cs[..|cs| - 1]) + Place(rest, [cs[|cs| - 1]], width, limit)
  }

  /** A line fits, or cannot be made any shorter. */
  predicate FitsLine(line: string, width: string -> real, limit: real) {
    width(line) <= limit || |line| <= 1
  }

  predicate AllFit(lines: seq<seq<string>>, width: string -> real, limit: real) {
    forall line | line in lines :: FitsLine(Join(line), width, limit)
  }

  lemma {:induction false} ChunksFit(w: string, chunk: string, width: string -> real, limit: real)
    requires FitsLine(chunk, width, limit)
    ensures forall c | c in Chunks(w, chunk, width, limit) :: FitsLine(c, width, limit)
    decreases |w|
  {
    if w != "" {
      if chunk != "" && width(chunk + [w[0]]) > limit {
        ChunksFit(w[1..], [w[0]], width, limit);
      } else {
        ChunksFit(w[1..], chunk + [w[0]], width, limit);
      }
    }
  }

  lemma {:induction false} ChunksRebuild(w: string, chunk: string, width: string -> real, limit: real)
    ensures Concat(Chunks(w, chunk, width, limit)) == chunk + w
    ensures forall c | c in Chunks(w, chunk, width, limit) :: c != ""
    decreases |w|
  {
    if w != "" {
      if chunk != "" && width(chunk + [w[0]]) > limit {
        ChunksRebuild(w[1..], [w[0]], width, limit);
        assert ([chunk] + Chunks(w[1..], [w[0]], width, limit))[1..] == Chunks(w[1..], [w[0]], width, limit);
        assert w == [w[0]] + w[1..];
      } else {
        ChunksRebuild(w[1..], chunk + [w[0]], width, limit);
        assert chunk + w == chunk + [w[0]] + w[1..];
      }
    } else {
      assert chunk + w == chunk;
      assert chunk != "" ==> Concat([chunk]) == chunk + Concat([]);
    }
  }

  // ---------- no line is broken early ----------

  /**
   * The line could not go on: the word that the next line begins with, whole or cut, does not fit behind it, or both
   * are pieces of one word and not even the next rune fits.
   */
  ghost predicate MustBreak(line: seq<string>, next: seq<string>, words: seq<string>, width: string -> real,
                            limit: real)
  {
    && line != [] && next != [] && next[0] != ""
    && ((exists w | w in words :: next[0] <= w && width(Join(line + [w])) > limit)
        || (|line| == 1 && width(line[0] + [next[0][0]]) > limit))
  }

  ghost predicate BreaksByNeed(lines: seq<seq<string>>, words: seq<string>, width: string -> real, limit: real) {
    forall i | 0 < i < |lines| :: MustBreak(lines[i - 1], lines[i], words, width, limit)
  }

  /** Each piece of a cut word is as long as the limit lets it be. */
  lemma {:induction false} ChunksAreFull(w: string, chunk: string, width: string -> real, limit: real)
    ensures var cs := Chunks(w, chunk, width, limit);
            && (cs != [] ==> if chunk != "" then chunk <= cs[0] else cs[0] <= w)
            && forall i | 0 < i < |cs| :: cs[i] != "" && width(cs[i - 1] + [cs[i][0]]) > limit
    decreases |w|
  {
    if w != "" {
      var cs := Chunks(w, chunk, width, limit);
      if chunk != "" && width(chunk + [w[0]]) > limit {
        var rest := Chunks(w[1..], [w[0]], width, limit);
        ChunksAreFull(w[1..], [w[0]], width, limit);
        assert rest != [] && rest[0][0] == w[0];
        assert cs[1..] == rest;
        forall i | 0 < i < |cs|
          ensures cs[i] != "" && width(cs[i - 1] + [cs[i][0]]) > limit
        {
          if i > 1 {
            assert cs[i] == rest[i - 1] && cs[i - 1] == rest[i - 2];
          }
        }
      } else {
        ChunksAreFull(w[1..], chunk + [w[0]], width, limit);
        if chunk == "" {
          ChunksRebuild(w, chunk, width, limit);
          assert Concat(cs) == cs[0] + Concat(cs[1..]) && "" + w == w;
        }
      }
    }
  }

  lemma {:induction false} PlaceGoesOn(words: seq<string>, current: seq<string>, width: string -> real, limit: real)
    requires AllSolid(words) && current != []
    ensures Place(words, current, width, limit) != [] && current <= Place(words, current, width, limit)[0]
    decreases |words|
  {
    if words != [] && width(Join(current + [words[0]])) <= limit {
      PlaceGoesOn(words[1..], current + [words[0]], width, limit);
    }
  }

  /** A line ends only where what comes next does not fit. */
  lemma {:induction false} LinesBreakByNeed(words: seq<string>, current: seq<string>, width: string -> real,
                                            limit: real)
    requires AllSolid(words)
    ensures BreaksByNeed(Place(words, current, width, limit), words, width, limit)
    decreases |words|
  {
    hide BreaksByNeed, Join, Chunks, Solid, Place, Flush, Singles;
    PlaceStep(words, current, width, limit);
    if words == [] {
      FlushIsShort(current);
      OneNeedsNone(Flush(current), words, width, limit);
    } else {
      var w, rest := words[0], words[1..];
      assert Solid(w);
      if width(Join(current + [w])) <= limit {
        LinesBreakByNeed(rest, current + [w], width, limit);
        NeedAmongMore(Place(rest, current + [w], width, limit), rest, words, width, limit);
      } else if width(w) <= limit {
        var more := Place(rest, [w], width, limit);
        LinesBreakByNeed(rest, [w], width, limit);
        NeedAmongMore(more, rest, words, width, limit);
        PlaceGoesOn(rest, [w], width, limit);
        SolidIsText(w);
        LineBefore(current, more, w, words, width, limit);
      } else {
        var cs := Chunks(w, "", width, limit);
        SolidIsText(w);
        LinesBreakByNeed(rest, [cs[|cs| - 1]], width, limit);
        NeedAmongMore(Place(rest, [cs[|cs| - 1]], width, limit), rest, words, width, limit);
        PlaceGoesOn(rest, [cs[|cs| - 1]], width, limit);
        CutBreaksByNeed(words, current, cs, Place(rest, [cs[|cs| - 1]], width, limit), width, limit);
      }
    }
  }

  lemma FlushIsShort(current: seq<string>)
    ensures |Flush(current)| <= 1
  {
  }

  /** One word more on the line, on a line of its own, or cut up. */
  lemma PlaceStep(words: seq<string>, current: seq<string>, width: string -> real, limit: real)
    requires AllSolid(words)
    ensures words == [] ==> Place(words, current, width, limit) == Flush(current)
    ensures words != [] ==>
              var w, rest := words[0], words[1..];
              && AllSolid(rest) && Chunks(w, "", width, limit) != []
              && Place(words, current, width, limit)
                 == if width(Join(current + [w])) <= limit then Place(rest, current + [w], width, limit)
                    else if width(w) <= limit then Flush(current) + Place(rest, [w], width, limit)
                    else
                      var cs := Chunks(w, "", width, limit);
                      Flush(current) + Singles(cs[..|cs| - 1]) + Place(rest, [cs[|cs| - 1]], width, limit)
  {
    hide Chunks, Join, Singles, Flush;
  }

  /** A word that has to be cut, and the lines after it. */
  lemma CutBreaksByNeed(words: seq<string>, current: seq<string>, cs: seq<string>, more: seq<seq<string>>,
                        width: string -> real, limit: real)
    requires words != [] && words[0] != "" && cs == Chunks(words[0], "", width, limit)
    requires width(Join(current + [words[0]])) > limit
    requires BreaksByNeed(more, words, width, limit) && more != [] && [cs[|cs| - 1]] <= more[0]
    ensures BreaksByNeed(Flush(current) + Singles(cs[..|cs| - 1]) + more, words, width, limit)
  {
    hide BreaksByNeed, Join, Chunks, Singles, Flush;
    var w := words[0];
    var cut := Singles(cs[..|cs| - 1]);
    CutIsFull(w, cs, width, limit);
    LinesBefore(cs, more, words, width, limit);
    LineBefore(current, cut + more, w, words, width, limit);
    Assoc(Flush(current), cut, more);
  }

  lemma CutIsFull(w: string, cs: seq<string>, width: string -> real, limit: real)
    requires w != "" && cs == Chunks(w, "", width, limit)
    ensures cs != [] && cs[0] != "" && cs[0] <= w
    ensures forall i | 0 < i < |cs| :: cs[i] != "" && width(cs[i - 1] + [cs[i][0]]) > limit
  {
    hide Chunks;
    ChunksAreFull(w, "", width, limit);
    ChunksRebuild(w, "", width, limit);
    assert cs[0] in cs;
  }

  lemma OneNeedsNone(lines: seq<seq<string>>, words: seq<string>, width: string -> real, limit: real)
    requires |lines| <= 1
    ensures BreaksByNeed(lines, words, width, limit)
  {
  }

  lemma NeedAmongMore(lines: seq<seq<string>>, rest: seq<string>, words: seq<string>, width: string -> real,
                      limit: real)
    requires BreaksByNeed(lines, rest, width, limit) && forall w | w in rest :: w in words
    ensures BreaksByNeed(lines, words, width, limit)
  {
  }

  lemma LineBefore(current: seq<string>, more: seq<seq<string>>, w: string, words: seq<string>, width: string -> real,
                   limit: real)
    requires BreaksByNeed(more, words, width, limit) && w in words && more != [] && more[0] != []
    requires more[0][0] != "" && more[0][0] <= w && width(Join(current + [w])) > limit
    ensures BreaksByNeed(Flush(current) + more, words, width, limit)
  {
    var lines := Flush(current) + more;
    forall i | 0 < i < |lines|
      ensures MustBreak(lines[i - 1], lines[i], words, width, limit)
    {
      if current == [] {
        assert lines == more;
      } else if i > 1 {
        assert lines[i - 1] == more[i - 2] && lines[i] == more[i - 1];
      }
    }
  }

  lemma LinesBefore(cs: seq<string>, more: seq<seq<string>>, words: seq<string>, width: string -> real, limit: real)
    requires cs != [] && BreaksByNeed(more, words, width, limit) && more != [] && [cs[|cs| - 1]] <= more[0]
    requires forall i | 0 < i < |cs| :: cs[i] != "" && width(cs[i - 1] + [cs[i][0]]) > limit
    ensures BreaksByNeed(Singles(cs[..|cs| - 1]) + more, words, width, limit)
    ensures var lines := Singles(cs[..|cs| - 1]) + more; lines != [] && lines[0] != [] && lines[0][0] == cs[0]
  {
    var n := |cs| - 1;
    var lines := Singles(cs[..n]) + more;
    assert more[0][0] == cs[n];
    forall i | 0 < i < |lines|
      ensures MustBreak(lines[i - 1], lines[i], words, width, limit)
    {
      if i > n {
        assert lines[i - 1] == more[i - 1 - n] && lines[i] == more[i - n];
      } else {
        assert lines[i - 1] == [cs[i - 1]] && lines[i][0] == cs[i];
      }
    }
  }

  /** Every line fits the limit or is a single rune. */
  lemma {:induction false} LinesFit(words: seq<string>, current: seq<string>, width: string -> real, limit: real)
    requires AllSolid(words)
    requires FitsLine(Join(current), width, limit)
    ensures AllFit(Place(words, current, width, limit), width, limit)
    decreases |words|
  {
    hide Join, Chunks, FitsLine, AllFit;
    OneFits(current, width, limit);
    if words != [] {
      var w, rest := words[0], words[1..];
      if width(Join(current + [w])) <= limit {
        FitsByWidth(current + [w], width, limit);
        LinesFit(rest, current + [w], width, limit);
      } else if width(w) <= limit {
        FitsByWidth([w], width, limit);
        LinesFit(rest, [w], width, limit);
        AllFitMore(Flush(current), Place(rest, [w], width, limit), width, limit);
      } else {
        var cs := Chunks(w, "", width, limit);
        var cut, last := cs[..|cs| - 1], cs[|cs| - 1];
        CutFits(w, width, limit);
        LinesFit(rest, [last], width, limit);
        AllFitMore(Flush(current), Singles(cut), width, limit);
        AllFitMore(Flush(current) + Singles(cut), Place(rest, [last], width, limit), width, limit);
      }
    }
  }

  lemma OneFits(current: seq<string>, width: string -> real, limit: real)
    requires FitsLine(Join(current), width, limit)
    ensures AllFit(Flush(current), width, limit)
  {
  }

  lemma FitsByWidth(pieces: seq<string>, width: string -> real, limit: real)
    requires width(Join(pieces)) <= limit || (|pieces| == 1 && width(pieces[0]) <= limit)
    ensures FitsLine(Join(pieces), width, limit)
  {
  }

  lemma AllFitMore(a: seq<seq<string>>, b: seq<seq<string>>, width: string -> real, limit: real)
    requires AllFit(a, width, limit) && AllFit(b, width, limit)
    ensures AllFit(a + b, width, limit)
  {
    hide Join, FitsLine;
  }

  lemma CutFits(w: string, width: string -> real, limit: real)
    requires w != ""
    ensures var cs := Chunks(w, "", width, limit);
            AllFit(Singles(cs[..|cs| - 1]), width, limit) && FitsLine(Join([cs[|cs| - 1]]), width, limit)
  {
    var cs := Chunks(w, "", width, limit);
    ChunksFit(w, "", width, limit);
    hide Chunks, FitsLine;
    forall line | line in Singles(cs[..|cs| - 1])
      ensures FitsLine(Join(line), width, limit)
    {
      var i :| 0 <= i < |cs| - 1 && line == Singles(cs[..|cs| - 1])[i];
      assert Join(line) == cs[i] && cs[i] in cs;
    }
    assert cs[|cs| - 1] in cs;
  }

  // ---------- nothing lost, nothing broken without need ----------

  function Flat(lines: seq<seq<string>>): seq<string> {
    if lines == [] then [] else lines[0] + Flat(lines[1..])
  }

  lemma {:induction false} FlatOfMore(a: seq<seq<string>>, b: seq<seq<string>>)
    ensures Flat(a + b) == Flat(a) + Flat(b)
  {
    if a == [] {
      Nothing(b);
      Nothing(Flat(b));
    } else {
      FlatOfMore(a[1..], b);
      TailOfMore(a, b);
      Assoc(a[0], Flat(a[1..]), Flat(b));
    }
  }

  lemma {:induction false} FlatOfSingles(pieces: seq<string>)
    ensures Flat(Singles(pieces)) == pieces
  {
    if pieces != [] {
      FlatOfSingles(pieces[1..]);
      assert Singles(pieces)[1..] == Singles(pieces[1..]);
    }
  }

  /** The pieces are the words in order; a word is in more than one piece only if it alone exceeds the limit. */
  ghost predicate Broken(pieces: seq<string>, words: seq<string>, width: string -> real, limit: real)
    decreases |words|
  {
    if words == [] then pieces == []
    else exists k :: BrokenAt(pieces, words[0], k, width, limit) && Broken(pieces[k..], words[1..], width, limit)
  }

  predicate BrokenAt(pieces: seq<string>, w: string, k: int, width: string -> real, limit: real) {
    1 <= k <= |pieces| && Concat(pieces[..k]) == w && (k > 1 ==> width(w) > limit)
  }

  lemma WordThenRest(head: seq<string>, tail: seq<string>, words: seq<string>, width: string -> real, limit: real)
    requires words != [] && head != [] && Concat(head) == words[0] && (|head| > 1 ==> width(words[0]) > limit)
    requires Broken(tail, words[1..], width, limit)
    ensures Broken(head + tail, words, width, limit)
  {
    assert (head + tail)[..|head|] == head && (head + tail)[|head|..] == tail;
    assert BrokenAt(head + tail, words[0], |head|, width, limit);
  }

  /** One turn puts the pieces of the first word after the line begun; what ends in a finished line is `base`. */
  lemma FlatTurn(words: seq<string>, current: seq<string>, width: string -> real, limit: real)
    returns (cs: seq<string>, base: seq<string>, next: seq<string>)
    requires words != [] && AllSolid(words)
    ensures Flat(Place(words, current, width, limit)) == base + Flat(Place(words[1..], next, width, limit))
    ensures base + next == current + cs
    ensures cs != [] && Concat(cs) == words[0] && (|cs| > 1 ==> width(words[0]) > limit)
  {
    hide Chunks, Join, Concat, Flat, Flush, Singles;
    var w, rest := words[0], words[1..];
    FlatOfFlush(current);
    ConcatOne(w);
    if width(Join(current + [w])) <= limit {
      Nothing(current + [w]);
      Nothing(Flat(Place(rest, current + [w], width, limit)));
      return [w], [], current + [w];
    } else if width(w) <= limit {
      FlatOfMore(Flush(current), Place(rest, [w], width, limit));
      return [w], current, [w];
    } else {
      cs := Chunks(w, "", width, limit);
      ChunksRebuild(w, "", width, limit);
      var cut, last := cs[..|cs| - 1], cs[|cs| - 1];
      FlatOfMore(Flush(current) + Singles(cut), Place(rest, [last], width, limit));
      FlatOfMore(Flush(current), Singles(cut));
      FlatOfSingles(cut);
      Assoc(current, cut, [last]);
      assert cs == cut + [last];
      return cs, current + cut, [last];
    }
  }

  lemma FlatOfFlush(current: seq<string>)
    ensures Flat(Flush(current)) == current
  {
    assert Flat([current]) == current + Flat([]);
  }

  lemma {:induction false} RestIsBroken(words: seq<string>, current: seq<string>, width: string -> real, limit: real)
    returns (tail: seq<string>)
    requires AllSolid(words)
    ensures Flat(Place(words, current, width, limit)) == current + tail && Broken(tail, words, width, limit)
    decreases |words|
  {
    if words == [] {
      FlatOfFlush(current);
      Nothing(current);
      tail := [];
    } else {
      hide Place, Flat, Concat, Broken;
      var cs, base, next := FlatTurn(words, current, width, limit);
      var more := RestIsBroken(words[1..], next, width, limit);
      WordThenRest(cs, more, words, width, limit);
      tail := cs + more;
      Assoc(base, next, more);
      Assoc(current, cs, more);
    }
  }

  /** The lines of a paragraph hold its words in order, each unbroken unless it alone exceeds the limit. */
  lemma WordsBreakOnlyByNeed(words: seq<string>, width: string -> real, limit: real)
    requires AllSolid(words)
    ensures Broken(Flat(Place(words, [], width, limit)), words, width, limit)
  {
    var tail := RestIsBroken(words, [], width, limit);
    assert [] + tail == tail;
  }

  lemma ConcatOne(w: string)
    ensures Concat([w]) == w
  {
    assert Concat([w]) == w + Concat([]);
  }

  lemma {:induction false} ConcatInk(ws: seq<string>)
    ensures InkOf(ws) == Ink(Concat(ws))
  {
    if ws != [] {
      ConcatInk(ws[1..]);
      InkOfConcat(ws[0], Concat(ws[1..]));
    }
  }

  lemma {:induction false} BrokenInk(pieces: seq<string>, words: seq<string>, width: string -> real, limit: real)
    requires Broken(pieces, words, width, limit)
    ensures InkOf(pieces) == InkOf(words)
    decreases |words|
  {
    if words != [] {
      var k :| BrokenAt(pieces, words[0], k, width, limit) && Broken(pieces[k..], words[1..], width, limit);
      BrokenInk(pieces[k..], words[1..], width, limit);
      ConcatInk(pieces[..k]);
      InkOfMore(pieces[..k], pieces[k..]);
      assert pieces == pieces[..k] + pieces[k..];
    }
  }

  lemma {:induction false} JoinInk(pieces: seq<string>)
    ensures Ink(Join(pieces)) == InkOf(pieces)
  {
    if |pieces| == 1 {
      assert InkOf(pieces) == Ink(pieces[0]) + InkOf([]);
    } else if |pieces| > 1 {
      var init, last := pieces[..|pieces| - 1], pieces[|pieces| - 1];
      JoinInk(init);
      InkOfMore(init, [last]);
      assert pieces == init + [last];
      assert InkOf([last]) == Ink(last) + InkOf([]);
      InkOfConcat(Join(init) + " ", last);
      InkOfConcat(Join(init), " ");
      assert Ink(" ") == "";
    }
  }

  function JoinAll(lines: seq<seq<string>>): (r: seq<string>)
    ensures |r| == |lines| && forall i | 0 <= i < |r| :: r[i] == Join(lines[i])
  {
    seq(|lines|, i requires 0 <= i < |lines| => Join(lines[i]))
  }

  lemma {:induction false} JoinAllInk(lines: seq<seq<string>>)
    ensures InkOf(JoinAll(lines)) == InkOf(Flat(lines))
  {
    if lines != [] {
      JoinAllInk(lines[1..]);
      JoinInk(lines[0]);
      InkOfMore(lines[0], Flat(lines[1..]));
      assert JoinAll(lines)[1..] == JoinAll(lines[1..]);
    }
  }

  // ---------- the layout of a text ----------

  function Paragraph(p: string, width: string -> real, limit: real): seq<seq<string>> {
    var trimmed := TrimSpace(p);
    if trimmed == "" then [[]] else Place(Fields(trimmed), [], width, limit)
  }

  function Layout(paragraphs: seq<string>, width: string -> real, limit: real): seq<seq<string>> {
    if paragraphs == [] then []
    else Layout(paragraphs[..|paragraphs| - 1], width, limit) + Paragraph(paragraphs[|paragraphs| - 1], width, limit)
  }

  lemma PlacedIsKept(words: seq<string>, width: string -> real, limit: real)
    requires words != [] && AllSolid(words)
    ensures var lines := Place(words, [], width, limit);
            lines != [] && AllFit(lines, width, limit) && InkOf(JoinAll(lines)) == InkOf(words)
  {
    hide Place, Ink, InkOf, JoinAll, AllFit, FitsLine;
    var lines := Place(words, [], width, limit);
    FitsEmpty(width, limit);
    LinesFit(words, [], width, limit);
    WordsBreakOnlyByNeed(words, width, limit);
    BrokenInk(Flat(lines), words, width, limit);
    JoinAllInk(lines);
  }

  lemma FitsEmpty(width: string -> real, limit: real)
    ensures FitsLine(Join([]), width, limit)
  {
  }

  lemma InkStarts(s: string)
    requires s != "" && !IsSpace(s[0])
    ensures Ink(s) != ""
  {
  }

  lemma EmptyInk()
    ensures Ink("") == "" && InkOf([]) == ""
  {
  }

  lemma InkOfOne(s: string)
    ensures InkOf([s]) == Ink(s)
  {
    assert InkOf([s]) == Ink(s) + InkOf([]);
  }

  /**
   * A paragraph gives at least one line, each line fits and ends only where what comes next does not fit, and its ink
   * is kept in order. A blank one gives one empty line.
   */
  lemma ParagraphIsKept(p: string, width: string -> real, limit: real)
    ensures Paragraph(p, width, limit) != [] && AllFit(Paragraph(p, width, limit), width, limit)
    ensures InkOf(JoinAll(Paragraph(p, width, limit))) == Ink(p)
    ensures BreaksByNeed(Paragraph(p, width, limit), Fields(TrimSpace(p)), width, limit)
    ensures AllSpace(p) <==> JoinAll(Paragraph(p, width, limit)) == [""]
  {
    hide Ink, InkOf, Place, TrimSpace, Fields, BreaksByNeed;
    var trimmed := TrimSpace(p);
    TrimsToNothing(p);
    TrimInk(p);
    if trimmed == "" {
      InkOfOne("");
      assert JoinAll([[]]) == [""];
      assert Join([]) == "";
      OneNeedsNone([[]], Fields(trimmed), width, limit);
    } else {
      FieldsInk(trimmed);
      InkStarts(trimmed);
      InkOfOne("");
      EmptyInk();
      PlacedIsKept(Fields(trimmed), width, limit);
      LinesBreakByNeed(Fields(trimmed), [], width, limit);
    }
  }

  lemma {:induction false} LayoutIsKept(paragraphs: seq<string>, width: string -> real, limit: real)
    ensures |Layout(paragraphs, width, limit)| >= |paragraphs|
    ensures AllFit(Layout(paragraphs, width, limit), width, limit)
    ensures InkOf(JoinAll(Layout(paragraphs, width, limit))) == InkOf(paragraphs)
  {
    hide Ink, Paragraph, FitsLine, Join;
    if paragraphs != [] {
      var init, last := paragraphs[..|paragraphs| - 1], paragraphs[|paragraphs| - 1];
      LayoutIsKept(init, width, limit);
      ParagraphIsKept(last, width, limit);
      var a, b := Layout(init, width, limit), Paragraph(last, width, limit);
      JoinAllOfMore(a, b);
      InkOfMore(JoinAll(a), JoinAll(b));
      InkOfMore(init, [last]);
      InkOfOne(last);
      assert paragraphs == init + [last];
    }
  }

  // ---------- the loops ----------

  function Limit(maxWidth: real, safety: real): real {
    var s := if safety <= 0.0 || safety > 1.0 then 0.92 else safety;
    if maxWidth * s < 1.0 then 1.0 else maxWidth * s
  }

  /** The limit is the width given, cut down for safety, and never below 1. */
  lemma LimitIsBounded(maxWidth: real, safety: real)
    ensures 1.0 <= Limit(maxWidth, safety)
    ensures Limit(maxWidth, safety) <= if maxWidth > 1.0 then maxWidth else 1.0
    ensures 0.0 < safety <= 1.0 && maxWidth * safety >= 1.0 ==> Limit(maxWidth, safety) == maxWidth * safety
    ensures !(0.0 < safety <= 1.0) ==> Limit(maxWidth, safety) == Limit(maxWidth, 0.92)
  {
    Shrinks(maxWidth, if safety <= 0.0 || safety > 1.0 then 0.92 else safety);
  }

  lemma Shrinks(x: real, s: real)
    requires 0.0 < s <= 1.0
    ensures x > 0.0 ==> x * s <= x
    ensures x <= 0.0 ==> x * s <= 0.0
  {
    if x > 0.0 {
      var rest := 1.0 - s;
      assert x * rest >= 0.0;
      assert x * s + x * rest == x * (s + rest);
    } else {
      assert -x * s >= 0.0;
    }
  }

  /** Cut one word that is too wide: whole chunks become lines, the last one is the line begun. */
  method CutWord(w: string, width: string -> real, limit: real) returns (lines: seq<string>, current: string)
    requires w != ""
    ensures lines + [current] == Chunks(w, "", width, limit)
  {
    lines := [];
    var chunk := "";
    for i := 0 to |w|
      invariant lines + Chunks(w[i..], chunk, width, limit) == Chunks(w, "", width, limit)
      invariant i > 0 ==> chunk != ""
    {
      var next := chunk + [w[i]];
      assert w[i..][1..] == w[i + 1..];
      assert "" + [w[i]] == [w[i]];
      if |chunk| > 0 && width(next) > limit {
        lines := lines + [chunk];
        chunk := "";
      }
      chunk := chunk + [w[i]];
    }
    return lines, chunk;
  }

  /** The text of a line begun, if any, as a finished line. */
  function Finished(current: string): seq<string> {
    if current == "" then [] else [current]
  }

  /** A word that does not fit behind the line begun: the lines it finishes, and the line it begins. */
  function Overflowed(w: string, current: string, width: string -> real, limit: real): (seq<string>, string)
    requires w != ""
  {
    if width(w) <= limit then (Finished(current), w)
    else
      var cs := Chunks(w, "", width, limit);
      (Finished(current) + cs[..|cs| - 1], cs[|cs| - 1])
  }

  lemma FlushIsFinished(pieces: seq<string>)
    requires Join(pieces) == "" <==> pieces == []
    ensures JoinAll(Flush(pieces)) == Finished(Join(pieces))
  {
    hide Join;
  }

  lemma LastChunk(w: string, width: string -> real, limit: real)
    requires w != ""
    ensures var cs := Chunks(w, "", width, limit); cs != [] && cs[|cs| - 1] != ""
  {
    ChunksRebuild(w, "", width, limit);
    var cs := Chunks(w, "", width, limit);
    assert cs != [];
    assert cs[|cs| - 1] in cs;
  }

  /** A word that starts a line of its own. */
  lemma PlaceFresh(words: seq<string>, pieces: seq<string>, width: string -> real, limit: real)
    requires words != [] && AllSolid(words) && (Join(pieces) == "" <==> pieces == [])
    requires width(Join(pieces + [words[0]])) > limit && width(words[0]) <= limit
    ensures JoinAll(Place(words, pieces, width, limit))
         == Finished(Join(pieces)) + JoinAll(Place(words[1..], [words[0]], width, limit))
  {
    hide Join, JoinAll, Chunks;
    FlushIsFinished(pieces);
    JoinAllOfMore(Flush(pieces), Place(words[1..], [words[0]], width, limit));
  }

  /** A word that is cut. */
  lemma PlaceCut(words: seq<string>, pieces: seq<string>, width: string -> real, limit: real)
    requires words != [] && AllSolid(words) && (Join(pieces) == "" <==> pieces == [])
    requires width(Join(pieces + [words[0]])) > limit && width(words[0]) > limit
    ensures var cs := Chunks(words[0], "", width, limit);
            && cs[|cs| - 1] != ""
            && JoinAll(Place(words, pieces, width, limit))
            == Finished(Join(pieces)) + cs[..|cs| - 1] + JoinAll(Place(words[1..], [cs[|cs| - 1]], width, limit))
  {
    hide Join, JoinAll, Chunks;
    var cs := Chunks(words[0], "", width, limit);
    var cut := cs[..|cs| - 1];
    LastChunk(words[0], width, limit);
    FlushIsFinished(pieces);
    JoinAllOfSingles(cut);
    JoinAllOfMore(Flush(pieces) + Singles(cut), Place(words[1..], [cs[|cs| - 1]], width, limit));
    JoinAllOfMore(Flush(pieces), Singles(cut));
  }

  lemma PlaceTurn(words: seq<string>, pieces: seq<string>, width: string -> real, limit: real)
    requires words != [] && AllSolid(words) && (Join(pieces) == "" <==> pieces == [])
    ensures var w, rest, over := words[0], words[1..], Overflowed(words[0], Join(pieces), width, limit);
            && over.1 != ""
            && JoinAll(Place(words, pieces, width, limit)) ==
                 if width(Join(pieces + [w])) <= limit then JoinAll(Place(rest, pieces + [w], width, limit))
                 else over.0 + JoinAll(Place(rest, [over.1], width, limit))
  {
    hide Join, JoinAll, Chunks, Flush, Singles;
    LastChunk(words[0], width, limit);
    if width(Join(pieces + [words[0]])) > limit {
      if width(words[0]) <= limit {
        PlaceFresh(words, pieces, width, limit);
      } else {
        PlaceCut(words, pieces, width, limit);
      }
    }
  }

  lemma JoinAllOfSingles(pieces: seq<string>)
    ensures JoinAll(Singles(pieces)) == pieces
  {
  }

  method Overflow(w: string, current: string, width: string -> real, limit: real)
    returns (finished: seq<string>, next: string)
    requires w != ""
    ensures (finished, next) == Overflowed(w, current, width, limit)
  {
    hide Chunks;
    finished := [];
    if current != "" {
      finished := [current];
    }
    if width(w) <= limit {
      next := w;
    } else {
      var cut;
      cut, next := CutWord(w, width, limit);
      finished := finished + cut;
    }
  }

  lemma JoinOneMore(pieces: seq<string>, w: string)
    requires w != "" && (Join(pieces) == "" <==> pieces == [])
    ensures Join(pieces + [w]) == (if pieces == [] then w else Join(pieces) + " " + w) != ""
    ensures Join([w]) == w
  {
    assert (pieces + [w])[..|pieces|] == pieces;
  }

  lemma PlaceEnds(pieces: seq<string>, width: string -> real, limit: real)
    requires Join(pieces) == "" <==> pieces == []
    ensures JoinAll(Place([], pieces, width, limit)) == Finished(Join(pieces))
  {
  }

  /** Lay out the words of one paragraph. */
  method PlaceWords(words: seq<string>, width: string -> real, limit: real) returns (lines: seq<string>)
    requires AllSolid(words)
    ensures lines == JoinAll(Place(words, [], width, limit))
  {
    hide JoinAll, Place, Overflowed, Join, Solid;
    lines := [];
    var current := "";
    ghost var pieces: seq<string> := [];
    JoinEmpty();
    Nothing(JoinAll(Place(words, [], width, limit)));
    assert words[0..] == words;
    for i := 0 to |words|
      invariant current == Join(pieces) && (current == "" <==> pieces == [])
      invariant lines + JoinAll(Place(words[i..], pieces, width, limit)) == JoinAll(Place(words, [], width, limit))
    {
      var w := words[i];
      DropOne(words, i);
      SolidIsText(w);
      JoinOneMore(pieces, w);
      PlaceTurn(words[i..], pieces, width, limit);
      var trial := if current == "" then w else current + " " + w;
      if width(trial) <= limit {
        current, pieces := trial, pieces + [w];
      } else {
        var finished;
        finished, current := Overflow(w, current, width, limit);
        Assoc(lines, finished, JoinAll(Place(words[i + 1..], [current], width, limit)));
        JoinOneMore([], current);
        lines, pieces := lines + finished, [current];
      }
    }
    PlaceEnds(pieces, width, limit);
    assert words[|words|..] == [];
    if current != "" {
      lines := lines + [current];
    }
  }

  lemma SolidIsText(w: string)
    requires Solid(w)
    ensures w != ""
  {
  }

  lemma JoinEmpty()
    ensures Join([]) == ""
  {
  }

  lemma JoinAllOfMore(a: seq<seq<string>>, b: seq<seq<string>>)
    ensures JoinAll(a + b) == JoinAll(a) + JoinAll(b)
  {
  }

  /**
   * At least one line; every line fits the limit or is a single rune; and the runes that are not white space come out
   * in order, each once. Only for a font that measures nothing are lines cut by length instead.
   */
  method WrapMeasuredSafe(text: string, width: string -> real, maxWidth: real, safety: real)
    returns (lines: seq<string>)
    ensures |lines| >= 1 && InkOf(lines) == Ink(text)
    ensures width("x") < 0.0001 ==> exists parts :: CutUp(lines, parts, Paragraphs(text), 40)
    ensures width("x") >= 0.0001 ==> forall line | line in lines :: FitsLine(line, width, Limit(maxWidth, safety))
    ensures width("x") >= 0.0001 && TrimSpace(text) != "" ==>
              lines == JoinAll(Layout(Paragraphs(TrimSpace(text)), width, Limit(maxWidth, safety)))
  {
    hide Ink, InkOf, TrimSpace, Layout, Limit, CutUp;
    var limit := Limit(maxWidth, safety);
    if width("x") < 0.0001 {
      ghost var parts;
      lines, parts := WrapByBudget(text, 40);
      return;
    }
    var trimmed := TrimSpace(text);
    TrimInk(text);
    if trimmed == "" {
      InkOfOne("");
      return [""];
    }
    var paragraphs := Paragraphs(trimmed);
    lines := LayoutParagraphs(paragraphs, width, limit);
    LayoutIsKept(paragraphs, width, limit);
    ParagraphsInk(trimmed);
    if |lines| == 0 {
      return [""];
    }
  }

  method LayoutParagraphs(paragraphs: seq<string>, width: string -> real, limit: real) returns (lines: seq<string>)
    ensures lines == JoinAll(Layout(paragraphs, width, limit))
  {
    hide Layout, Paragraph, Join, TrimSpace;
    lines := [];
    LayoutTurn([], width, limit);
    for n := 0 to |paragraphs|
      invariant lines == JoinAll(Layout(paragraphs[..n], width, limit))
    {
      var more := LayoutParagraph(paragraphs[n], width, limit);
      LayoutTurn(paragraphs[..n + 1], width, limit);
      assert paragraphs[..n + 1][..n] == paragraphs[..n];
      lines := lines + more;
    }
    assert paragraphs[..|paragraphs|] == paragraphs;
  }

  lemma LayoutTurn(paragraphs: seq<string>, width: string -> real, limit: real)
    ensures JoinAll(Layout([], width, limit)) == []
    ensures paragraphs != [] ==>
              var init, last := paragraphs[..|paragraphs| - 1], paragraphs[|paragraphs| - 1];
              JoinAll(Layout(paragraphs, width, limit))
              == JoinAll(Layout(init, width, limit)) + JoinAll(Paragraph(last, width, limit))
  {
    hide Paragraph, Join;
  }

  method LayoutParagraph(p: string, width: string -> real, limit: real) returns (lines: seq<string>)
    ensures lines == JoinAll(Paragraph(p, width, limit))
  {
    hide Place, TrimSpace, Fields;
    if TrimSpace(p) == "" {
      lines := [""];
    } else {
      lines := PlaceWords(Fields(TrimSpace(p)), width, limit);
    }
  }

  /** A paragraph in lines that hold as many runes as they may, but for the last. */
  ghost predicate FullLines(lines: seq<string>, p: string, budget: nat) {
    && lines != [] && Concat(lines) == p && (forall i | 0 <= i < |lines| - 1 :: |lines[i]| == budget)
    && |lines[|lines| - 1]| <= budget && (lines[|lines| - 1] == "" ==> p == "" && |lines| == 1)
  }

  /** The lines are those of the paragraphs, one paragraph after the other. */
  ghost predicate CutUp(lines: seq<string>, parts: seq<seq<string>>, ps: seq<string>, budget: nat) {
    && lines == Flat(parts) && |parts| == |ps|
    && forall k | 0 <= k < |ps| :: FullLines(parts[k], TrimSpace(ps[k]), budget)
  }

  lemma CutUpGoesOn(lines: seq<string>, more: seq<string>, parts: seq<seq<string>>, ps: seq<string>, p: string,
                    budget: nat)
    requires CutUp(lines, parts, ps, budget) && FullLines(more, TrimSpace(p), budget)
    ensures CutUp(lines + more, parts + [more], ps + [p], budget)
  {
    hide FullLines, TrimSpace;
    FlatOfMore(parts, [more]);
    assert Flat([more]) == more + Flat([]);
  }

  /** Lines of `max(n, 8)` runes, the last one of each paragraph shorter; nothing but white space is lost. */
  method WrapByBudget(text: string, n: nat) returns (lines: seq<string>, ghost parts: seq<seq<string>>)
    ensures |lines| >= 1 && InkOf(lines) == Ink(text)
    ensures forall line | line in lines :: |line| <= if n < 8 then 8 else n
    ensures CutUp(lines, parts, Paragraphs(text), if n < 8 then 8 else n)
  {
    hide Ink, InkOf, TrimSpace, CutUp, FullLines, Paragraphs;
    var budget := if n < 8 then 8 else n;
    var paragraphs := Paragraphs(text);
    lines, parts := [], [];
    EmptyInk();
    NothingIsCut(budget);
    for k := 0 to |paragraphs|
      invariant CutUp(lines, parts, paragraphs[..k], budget)
      invariant |lines| >= k && InkOf(lines) == InkOf(paragraphs[..k])
      invariant forall line | line in lines :: |line| <= budget
    {
      var p := TrimSpace(paragraphs[k]);
      TrimInk(paragraphs[k]);
      var more := [""];
      if p == "" {
        InkOfOne("");
        BlankIsFull(budget);
      } else {
        more := CutByBudget(p, budget);
      }
      CutUpGoesOn(lines, more, parts, paragraphs[..k], paragraphs[k], budget);
      parts := parts + [more];
      InkOfMore(lines, more);
      InkOfMore(paragraphs[..k], [paragraphs[k]]);
      InkOfOne(paragraphs[k]);
      assert paragraphs[..k + 1] == paragraphs[..k] + [paragraphs[k]];
      lines := lines + more;
    }
    assert paragraphs[..|paragraphs|] == paragraphs;
    ParagraphsInk(text);
    if |lines| == 0 {
      return [""], parts;
    }
  }

  lemma BlankIsFull(budget: nat)
    ensures FullLines([""], "", budget)
  {
    ConcatOne("");
  }

  lemma NothingIsCut(budget: nat)
    ensures CutUp([], [], [], budget)
  {
  }

  method CutByBudget(p: string, budget: nat) returns (lines: seq<string>)
    requires p != "" && budget > 0
    ensures lines != [] && InkOf(lines) == Ink(p) && FullLines(lines, p, budget)
    ensures forall line | line in lines :: |line| <= budget
  {
    hide Ink;
    lines := [];
    var i := 0;
    while i < |p|
      invariant 0 <= i && (i > 0 ==> lines != [] && lines[|lines| - 1] != "")
      invariant i < |p| ==> forall k | 0 <= k < |lines| :: |lines[k]| == budget
      invariant forall k | 0 <= k < |lines| - 1 :: |lines[k]| == budget
      invariant Concat(lines) == p[..if i < |p| then i else |p|]
      invariant forall line | line in lines :: |line| <= budget
    {
      var j := if i + budget > |p| then |p| else i + budget;
      ConcatOneMore(lines, p[i..j]);
      assert p[..j] == p[..i] + p[i..j];
      lines := lines + [p[i..j]];
      i := i + budget;
    }
    assert p[..|p|] == p;
    ConcatInk(lines);
  }

  lemma {:induction false} ConcatOneMore(ws: seq<string>, w: string)
    ensures Concat(ws + [w]) == Concat(ws) + w
  {
    if ws == [] {
      assert Concat([w]) == w + Concat([]);
    } else {
      ConcatOneMore(ws[1..], w);
      assert (ws + [w])[1..] == ws[1..] + [w];
    }
  }
}
