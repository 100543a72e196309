/** Greedy packing is optimal: no way of laying out the same words, or sentences, in chunks that
    fit needs fewer chunks. */
module ChunkerOptimality {
  import opened Collections
  import opened Text
  import opened Chunker

  type Line = seq<string>

  /** Length of the units joined by single spaces. */
  function JoinLength(line: Line): nat {
    if line == [] then 0
    else if |line| == 1 then |line[0]|
    else JoinLength(line[..|line| - 1]) + 1 + |line[|line| - 1]|
  }

  function Flat(lines: seq<Line>): seq<string> {
    if lines == [] then [] else Flat(lines[..|lines| - 1]) + lines[|lines| - 1]
  }

  /** A line fits, or is a single unit that can not be helped. */
  predicate LineOk(size: int, line: Line) {
    line != [] && (|line| == 1 || JoinLength(line) <= size)
  }

  ghost predicate Layout(size: int, units: seq<string>, lines: seq<Line>) {
    Flat(lines) == units && forall i :: 0 <= i < |lines| ==> LineOk(size, lines[i])
  }

  function LinesUsed(f: Filling): nat {
    |f.done| + if f.current == "" then 0 else 1
  }

  /** The length of the line greedy packing is on. */
  function CurrentLength(f: Filling): nat {
    if f.current != "" then |f.current| else if f.done != [] then |f.done[|f.done| - 1]| else 0
  }

  /** `lines` is no shorter than the greedy packing, and if as short, no emptier on its last line. */
  predicate Behind(f: Filling, lines: seq<Line>) {
    && |lines| >= LinesUsed(f)
    && (|lines| == LinesUsed(f) && lines != [] ==> JoinLength(lines[|lines| - 1]) >= CurrentLength(f))
  }

  /** A packing in progress: the current chunk is not blank, and if there is none the last unit
      was too long. */
  ghost predicate Steady(size: int, units: seq<string>, f: Filling) {
    && (f.current == "" || !Blank(f.current))
    && (f.current == "" && units != [] ==> |units[|units| - 1]| > size)
    && (units == [] ==> f == Filling([], ""))
  }

  lemma ExtendLength(current: string, u: string)
    requires !Blank(u)
    ensures Extend(current, u) != "" && !Blank(Extend(current, u))
    ensures |Extend(current, u)| == if current == "" then |u| else |current| + 1 + |u|
  {
    var ch :| ch in u && !IsSpace(ch);
    assert ch in Extend(current, u);
  }

  lemma {:induction false} PackingIsSteady(size: int, units: seq<string>)
    requires forall u | u in units :: !Blank(u)
    ensures Steady(size, units, AddWords(size, units))
  {
    if units != [] {
      var init, u := units[..|units| - 1], units[|units| - 1];
      assert u in units && forall x | x in init :: x in units;
      PackingIsSteady(size, init);
      ExtendLength(AddWords(size, init).current, u);
    }
  }

  /** The last line without its last unit. */
  lemma TakeLast(size: int, units: seq<string>, lines: seq<Line>) returns (front: seq<Line>, line: Line)
    requires Layout(size, units, lines) && units != []
    ensures var u, init := units[|units| - 1], units[..|units| - 1];
      && lines == front + [line + [u]]
      && (line == [] ==> Layout(size, init, front))
      && (line != [] ==>
           && Layout(size, init, front + [line])
           && init != [] && line[|line| - 1] == init[|init| - 1]
           && JoinLength(line + [u]) <= size)
  {
    var last := lines[|lines| - 1];
    front := lines[..|lines| - 1];
    assert LineOk(size, last) && units == Flat(front) + last;
    line := last[..|last| - 1];
    assert last == line + [last[|last| - 1]];
    if line != [] {
      var short := front + [line];
      assert short[..|short| - 1] == front;
      ShorterLine(size, last);
    } else {
      assert Flat(front) + [] == Flat(front);
    }
  }

  lemma ShorterLine(size: int, line: Line)
    requires |line| > 1 && JoinLength(line) <= size
    ensures JoinLength(line[..|line| - 1]) <= size
    ensures |line[|line| - 1]| <= size && |line[|line| - 2]| <= size
  {
    var front := line[..|line| - 1];
    assert |front| > 1 ==> JoinLength(front) == JoinLength(front[..|front| - 1]) + 1 + |front[|front| - 1]|;
  }

  /** One more unit, when the layout gives it a line of its own. */
  lemma OwnLine(size: int, units: seq<string>, f: Filling, u: string, front: seq<Line>)
    requires !Blank(u) && Steady(size, units, f) && Behind(f, front)
    ensures Behind(AddWord(size, f, u), front + [[u]])
  {
    ExtendLength(f.current, u);
  }

  /** One more unit, when the layout puts it behind others. */
  lemma SharedLine(size: int, units: seq<string>, f: Filling, u: string, front: seq<Line>, line: Line)
    requires !Blank(u) && Steady(size, units, f) && units != []
    requires line != [] && line[|line| - 1] == units[|units| - 1]
    requires JoinLength(line + [u]) <= size
    requires Behind(f, front + [line])
    ensures Behind(AddWord(size, f, u), front + [line + [u]])
  {
    var long := line + [u];
    assert long[..|long| - 1] == line;
    ShorterLine(size, long);
    assert long[|long| - 2] == units[|units| - 1];
    ExtendLength(f.current, u);
  }

  /** Greedy packing is never behind any other layout. */
  lemma {:induction false} GreedyStaysAhead(size: int, units: seq<string>, lines: seq<Line>)
    requires Layout(size, units, lines) && forall u | u in units :: !Blank(u)
    ensures Behind(AddWords(size, units), lines)
  {
    if units != [] {
      var init, u := units[..|units| - 1], units[|units| - 1];
      assert u in units && forall x | x in init :: x in units;
      var front, line := TakeLast(size, units, lines);
      PackingIsSteady(size, init);
      var f := AddWords(size, init);
      if line == [] {
        GreedyStaysAhead(size, init, front);
        OwnLine(size, init, f, u, front);
        assert [] + [u] == [u];
      } else {
        GreedyStaysAhead(size, init, front + [line]);
        SharedLine(size, init, f, u, front, line);
      }
    }
  }

  // -------------------------------------------------- greedy packing is a layout

  lemma {:induction false} JoinHasLength(line: Line)
    requires line != []
    ensures |Join(line)| == JoinLength(line)
  {
    if |line| > 1 {
      JoinHasLength(line[..|line| - 1]);
    }
  }

  /** A chunk is its line, but for spaces at the ends. */
  predicate Renders(line: Line, chunk: string) {
    line != [] && (chunk == Join(line) || chunk == Strip(Join(line)))
  }

  ghost predicate AllRender(lines: seq<Line>, chunks: seq<string>) {
    |lines| == |chunks| && forall i :: 0 <= i < |lines| ==> Renders(lines[i], chunks[i])
  }

  /** The finished chunks are lines, and the current one is a line if there is one. */
  ghost predicate Packs(size: int, units: seq<string>, f: Filling, lines: seq<Line>, open: Line) {
    && Flat(lines) + open == units
    && (forall i :: 0 <= i < |lines| ==> LineOk(size, lines[i]))
    && AllRender(lines, f.done)
    && (open == [] <==> f.current == "")
    && (open != [] ==> LineOk(size, open) && f.current == Join(open))
  }

  lemma FlatSnoc(lines: seq<Line>, line: Line)
    ensures Flat(lines + [line]) == Flat(lines) + line
  {
    assert (lines + [line])[..|lines|] == lines;
  }

  /** The current chunk, if any, becomes a finished line. */
  lemma CloseLine(size: int, units: seq<string>, f: Filling, lines: seq<Line>, open: Line) returns (more: seq<Line>)
    requires Packs(size, units, f, lines, open) && (f.current == "" || !Blank(f.current))
    ensures Flat(more) == units && (forall i :: 0 <= i < |more| ==> LineOk(size, more[i]))
    ensures AllRender(more, f.done + Flushed(f.current))
  {
    if open == [] {
      more := lines;
      assert f.done + [] == f.done && Flat(lines) + [] == Flat(lines);
    } else {
      more := lines + [open];
      FlatSnoc(lines, open);
    }
  }

  lemma OneUnit(u: string)
    ensures Join([u]) == u && JoinLength([u]) == |u|
  {
  }

  lemma LineGrows(size: int, line: Line, u: string)
    requires line != [] && |Join(line) + " " + u| <= size
    ensures LineOk(size, line + [u]) && Join(line + [u]) == Join(line) + " " + u
  {
    assert (line + [u])[..|line|] == line;
    JoinHasLength(line + [u]);
  }

  /** One more unit keeps a packing a layout. */
  lemma PackOneMore(size: int, units: seq<string>, f: Filling, lines: seq<Line>, open: Line, u: string)
    returns (lines1: seq<Line>, open1: Line)
    requires Packs(size, units, f, lines, open) && (f.current == "" || !Blank(f.current)) && !Blank(u)
    ensures Packs(size, units + [u], AddWord(size, f, u), lines1, open1)
  {
    OneUnit(u);
    if |Extend(f.current, u)| <= size {
      lines1, open1 := lines, open + [u];
      if open != [] {
        LineGrows(size, open, u);
      } else {
        assert open + [u] == [u];
      }
      Assoc(Flat(lines), open, [u]);
    } else {
      var closed := CloseLine(size, units, f, lines, open);
      if |u| > size {
        lines1, open1 := closed + [[u]], [];
        FlatSnoc(closed, [u]);
      } else {
        lines1, open1 := closed, [u];
      }
    }
  }

  lemma {:induction false} PackingIsLayout(size: int, units: seq<string>) returns (lines: seq<Line>, open: Line)
    requires forall u | u in units :: !Blank(u)
    ensures Packs(size, units, AddWords(size, units), lines, open)
  {
    if units == [] {
      lines, open := [], [];
    } else {
      var init, u := units[..|units| - 1], units[|units| - 1];
      assert u in units && forall x | x in init :: x in units;
      lines, open := PackingIsLayout(size, init);
      PackingIsSteady(size, init);
      lines, open := PackOneMore(size, init, AddWords(size, init), lines, open, u);
      InitLast(units);
    }
  }

  /** The chunks of the greedy packing are the lines of a layout. */
  lemma GreedyIsLayout(size: int, units: seq<string>) returns (lines: seq<Line>)
    requires forall u | u in units :: !Blank(u)
    ensures Layout(size, units, lines) && AllRender(lines, PackWords(size, units))
  {
    var done, open := PackingIsLayout(size, units);
    PackingIsSteady(size, units);
    lines := CloseLine(size, units, AddWords(size, units), done, open);
  }

  // ------------------------------------------------------------------- optimality

  /** `chunks` are a layout of the units, and none is shorter. */
  ghost predicate FewestChunks(size: int, units: seq<string>, chunks: seq<string>) {
    && (exists lines :: Layout(size, units, lines) && AllRender(lines, chunks))
    && (forall lines :: Layout(size, units, lines) ==> |chunks| <= |lines|)
  }

  /** Greedy packing yields a layout with the fewest chunks possible. */
  lemma WordPackingIsOptimal(size: int, units: seq<string>)
    requires forall u | u in units :: !Blank(u)
    ensures FewestChunks(size, units, PackWords(size, units))
  {
    var lines := GreedyIsLayout(size, units);
    PackingIsSteady(size, units);
    forall other | Layout(size, units, other) ensures |PackWords(size, units)| <= |other| {
      GreedyStaysAhead(size, units, other);
    }
  }

  /** In particular, for the words of a sentence. */
  lemma LongSentenceIsOptimal(c: Chunker, sentence: string)
    ensures FewestChunks(c.chunkSize, Words(sentence), PackWords(c.chunkSize, Words(sentence)))
  {
    WordsAreWords(sentence);
    forall w | w in Words(sentence) ensures !Blank(w) {
      WordIsStripped(w);
    }
    WordPackingIsOptimal(c.chunkSize, Words(sentence));
  }

  /** With no overlap and no overlong sentence, packing sentences is packing units. */
  lemma {:induction false} SentencesAsUnits(c: Chunker, ss: seq<string>)
    requires c.Valid() && c.overlap == 0
    requires forall s | s in ss :: !Blank(s) && |s| <= c.chunkSize
    ensures var k, f := AddSentences(c, ss), AddWords(c.chunkSize, ss);
      && Rendered(k.done) == f.done && k.current.Text() == f.current && k.current.carry == ""
  {
    if ss != [] {
      var init, s := ss[..|ss| - 1], ss[|ss| - 1];
      assert forall x | x in init :: x in ss;
      assert s in ss;
      SentencesAsUnits(c, init);
      RenderedStep(c, AddSentences(c, init), s);
    }
  }

  /** Without overlap, a text whose sentences all fit is cut into the fewest chunks that
      keep sentences whole. */
  lemma ChunkingIsOptimal(c: Chunker, text: string)
    requires c.Valid() && c.overlap == 0
    requires forall s | s in Sentences(text) :: |s| <= c.chunkSize
    ensures FewestChunks(c.chunkSize, Sentences(text), Chunks(c, text))
  {
    SentencesKeepWords(text);
    SentencesAsUnits(c, Sentences(text));
    ChunksAre(c, text);
    WordPackingIsOptimal(c.chunkSize, Sentences(text));
  }
}
