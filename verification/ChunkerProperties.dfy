/** What chunking promises: no word is lost or moved, overlap repeats the end of the chunk
    before, and chunks are not too long. */
module ChunkerProperties {
  import opened Collections
  import opened Text
  import opened Chunker
  import opened ChunkerWords
  import opened ChunkerStructure

  // ------------------------------------------------------------- piece sizes

  /** A piece fits, or is one overlong word, or is a carried tail with a single sentence. */
  predicate WellSized(c: Chunker, ss: seq<string>, p: Piece) {
    && !Blank(p.body)
    && (|p.Text()| <= c.chunkSize
        || (p.carry == "" && IsWord(p.body))
        || (p.carry != "" && p.body in ss && |p.body| <= c.chunkSize && |p.carry| <= c.overlap + 1))
  }

  predicate AllWellSized(c: Chunker, ss: seq<string>, ps: seq<Piece>) {
    forall p | p in ps :: WellSized(c, ss, p)
  }

  lemma TailLength(overlap: int, s: string)
    requires 0 <= overlap
    ensures |Tail(overlap, s)| <= overlap && |Tail(overlap, s)| <= |s|
  {
  }

  /** Overlap repeats an end of the text: right from behind the first blank among its last
      `overlap` characters, or all of these if there is none. */
  lemma TailIsExact(overlap: int, s: string)
    requires 0 <= overlap
    ensures var last, n := LastN(s, overlap), |Tail(overlap, s)|;
      && n <= overlap && n <= |s| && Tail(overlap, s) == s[|s| - n..]
      && (' ' !in last ==> n == |last|)
      && (' ' in last ==> n < |last| && last[|last| - n - 1] == ' ' && ' ' !in last[..|last| - n - 1])
  {
    var last := LastN(s, overlap);
    match IndexOf(last, ' ')
    case Some(i) => TailBehindBlank(overlap, s, i);
    case None =>
  }

  lemma TailBehindBlank(overlap: int, s: string, i: nat)
    requires 0 <= overlap && IndexOf(LastN(s, overlap), ' ') == Some(i)
    ensures var last, n := LastN(s, overlap), |Tail(overlap, s)|;
      && n == |last| - i - 1 && Tail(overlap, s) == s[|s| - n..]
      && last[i] == ' ' && last[i] in last && ' ' !in last[..i]
  {
    var last := LastN(s, overlap);
    SuffixTwice(s, |s| - |last|, i + 1);
  }

  lemma SuffixTwice(s: string, a: nat, b: nat)
    requires a <= |s| && b <= |s| - a
    ensures s[a..][b..] == s[a + b..]
  {
  }

  lemma {:induction false} SourceIn(ps: seq<Piece>, i: nat, s: string)
    requires i < |ps| && s in Source(ps[i])
    ensures s in Sources(ps)
    decreases |ps|
  {
    if i < |ps| - 1 {
      SourceIn(ps[..|ps| - 1], i, s);
    }
  }

  lemma JoinNotBlank(ss: seq<string>)
    requires ss != [] && !Blank(ss[|ss| - 1])
    ensures !Blank(Join(ss))
  {
    var s := ss[|ss| - 1];
    var ch :| ch in s && !IsSpace(ch);
    assert ch in Join(ss);
  }

  lemma PartSize(c: Chunker, p: Piece)
    requires c.Valid() && PieceOk(c, p) && p.origin.PartOf?
    ensures !Blank(p.body) && (|p.body| <= c.chunkSize || IsWord(p.body))
  {
    var s, k := p.origin.sentence, p.origin.index;
    WordsAreWords(s);
    PackWordsFits(c.chunkSize, Words(s));
    assert Split(c, s)[k] in Split(c, s);
    StripFacts(p.body);
  }

  /** What a piece carries, at most. */
  lemma CarryIs(c: Chunker, before: Option<Piece>, p: Piece)
    requires c.Valid() && PieceOk(c, p) && Meets(c, before, p)
    ensures p.carry == "" || (p.carry[|p.carry| - 1] == ' ' && |p.carry| <= c.overlap + 1 && c.overlap > 0 && before.Some?)
    ensures p.carry != "" ==> p.origin.Whole?
  {
    if p.carry != "" {
      TailLength(c.overlap, before.value.Text());
    }
  }

  function Before(ps: seq<Piece>, i: nat): Option<Piece>
    requires i < |ps|
  {
    if i == 0 then None else Some(ps[i - 1])
  }

  lemma PieceSize(c: Chunker, ss: seq<string>, ps: seq<Piece>, i: nat)
    requires c.Valid() && CutsUp(c, ss, ps) && i < |ps|
    ensures WellSized(c, ss, ps[i])
  {
    var p := ps[i];
    OrderedAt(c, ps, i);
    CarryIs(c, Before(ps, i), p);
    match p.origin
    case Whole(us) =>
      assert us[|us| - 1] in us && us[0] in us;
      JoinNotBlank(us);
      SourceIn(ps, i, us[0]);
    case PartOf(_, _) =>
      PartSize(c, p);
  }

  lemma PlanGood(c: Chunker, text: string)
    requires c.Valid()
    ensures CutsUp(c, Sentences(text), Plan(c, text)) && AllWellSized(c, Sentences(text), Plan(c, text))
  {
    PlanCutsUp(c, text);
    var ps := Plan(c, text);
    forall p | p in ps ensures WellSized(c, Sentences(text), p) {
      var i :| 0 <= i < |ps| && ps[i] == p;
      PieceSize(c, Sentences(text), ps, i);
    }
  }

  // ------------------------------------------------------- word conservation

  lemma ChunkWords(c: Chunker, before: Option<Piece>, p: Piece)
    requires c.Valid() && PieceOk(c, p) && Meets(c, before, p)
    ensures Words(p.Chunk()) == Words(p.carry) + Words(p.body)
  {
    CarryIs(c, before, p);
    StripFacts(p.Text());
    assert IsSpace(' ');
    WordsSplitAtSpace(p.carry, p.body);
  }

  lemma {:induction false} RenderedWords(ps: seq<Piece>)
    requires forall p | p in ps :: p.carry == ""
    ensures AllWords(Rendered(ps)) == BodyWords(ps)
  {
    if ps != [] {
      RenderedWords(ps[1..]);
      StripFacts(ps[0].Text());
      assert ps[0].Text() == ps[0].body;
      assert Rendered(ps)[1..] == Rendered(ps[1..]);
    }
  }

  /** Each chunk is a carried tail, taken from the end of the chunk before, followed by text
      of its own; the words of these texts, in order, are exactly the words of the input. */
  lemma WordsAreConserved(c: Chunker, text: string)
    requires c.Valid()
    ensures var ps, chunks := Plan(c, text), Chunks(c, text);
      && |chunks| == |ps|
      && (forall i :: 0 <= i < |ps| ==> Words(chunks[i]) == Words(ps[i].carry) + Words(ps[i].body))
      && BodyWords(ps) == Words(text)
      && CutsUp(c, Sentences(text), ps)
  {
    PlanWords(c, text);
    PlanCutsUp(c, text);
    var ps := Plan(c, text);
    forall i | 0 <= i < |ps| ensures Words(Chunks(c, text)[i]) == Words(ps[i].carry) + Words(ps[i].body) {
      OrderedAt(c, ps, i);
      ChunkWords(c, Before(ps, i), ps[i]);
    }
  }

  /** Without overlap the chunks together hold exactly the words of the text. */
  lemma WordsAreConservedExactly(c: Chunker, text: string)
    requires c.Valid() && c.overlap == 0
    ensures AllWords(Chunks(c, text)) == Words(text)
  {
    PlanWords(c, text);
    PlanCutsUp(c, text);
    var ps := Plan(c, text);
    forall p | p in ps ensures p.carry == "" {
      var i :| 0 <= i < |ps| && ps[i] == p;
      OrderedAt(c, ps, i);
      CarryIs(c, Before(ps, i), p);
    }
    RenderedWords(ps);
  }

  // ------------------------------------------------------------- chunk sizes

  /** Every chunk is non-empty and stripped, and is at most `chunk_size` long, or a single
      longer word, or one sentence behind a carried tail, at most `overlap + 1` longer. */
  lemma ChunkSizes(c: Chunker, text: string, i: nat)
    requires c.Valid() && i < |Chunks(c, text)|
    ensures var x, p := Chunks(c, text)[i], Plan(c, text)[i];
      && x != "" && Stripped(x)
      && (|x| <= c.chunkSize
          || IsWord(x)
          || (0 < i && 0 < c.overlap && p.body in Sentences(text) && |x| <= c.chunkSize + c.overlap + 1))
  {
    PlanGood(c, text);
    var ps := Plan(c, text);
    var p := ps[i];
    assert p in ps;
    OrderedAt(c, ps, i);
    CarryIs(c, Before(ps, i), p);
    NonBlankText(p);
    StripFacts(p.Text());
    if p.carry == "" && IsWord(p.body) {
      assert p.Text() == p.body;
      WordIsStripped(p.body);
    }
  }

  lemma {:induction false} WordNoLonger(s: string, w: string)
    requires w in Words(s)
    ensures |w| <= |s|
    decreases |s|
  {
    if IsSpace(s[0]) {
      WordNoLonger(s[1..], w);
    } else {
      var n := WordEnd(s);
      if w != s[..n] {
        assert w in Words(s[n..]);
        WordNoLonger(s[n..], w);
      }
    }
  }

  lemma {:induction false} WordInSome(ss: seq<string>, w: string) returns (i: nat)
    requires w in AllWords(ss)
    ensures i < |ss| && w in Words(ss[i])
  {
    if w in Words(ss[0]) {
      i := 0;
    } else {
      i := WordInSome(ss[1..], w);
      i := i + 1;
    }
  }

  lemma {:induction false} WordsOfSome(ss: seq<string>, i: nat, w: string)
    requires i < |ss| && w in Words(ss[i])
    ensures w in AllWords(ss)
  {
    if i > 0 {
      WordsOfSome(ss[1..], i - 1, w);
    }
  }

  predicate AllWithin(size: int, ss: seq<string>) {
    forall x | x in ss :: |x| <= size
  }

  /** Without overlap, chunks respect `chunk_size` exactly when every word does. */
  lemma SizeHoldsWithoutOverlap(c: Chunker, text: string)
    requires c.Valid() && c.overlap == 0
    ensures AllWithin(c.chunkSize, Chunks(c, text)) <==> AllWithin(c.chunkSize, Words(text))
  {
    var chunks := Chunks(c, text);
    WordsAreConservedExactly(c, text);
    if AllWithin(c.chunkSize, chunks) {
      forall w | w in Words(text) ensures |w| <= c.chunkSize {
        var i := WordInSome(chunks, w);
        assert chunks[i] in chunks;
        WordNoLonger(chunks[i], w);
      }
    }
    if AllWithin(c.chunkSize, Words(text)) {
      forall x | x in chunks ensures |x| <= c.chunkSize {
        var i :| 0 <= i < |chunks| && chunks[i] == x;
        ChunkSizes(c, text, i);
        if IsWord(x) {
          WordsOfWord(x);
          WordsOfSome(chunks, i, x);
        }
      }
    }
  }

  /** With overlap they do so if sentences leave room for a carried tail and the blank behind it. */
  lemma SizeHoldsWithRoom(c: Chunker, text: string)
    requires c.Valid() && AllWithin(c.chunkSize, Words(text))
    requires forall s | s in Sentences(text) && |s| <= c.chunkSize :: |s| <= c.chunkSize - c.overlap - 1
    ensures AllWithin(c.chunkSize, Chunks(c, text))
  {
    PlanGood(c, text);
    var ps := Plan(c, text);
    forall x | x in Chunks(c, text) ensures |x| <= c.chunkSize {
      var i :| 0 <= i < |ps| && Chunks(c, text)[i] == x;
      assert ps[i] in ps;
      StripFacts(ps[i].Text());
      if IsWord(ps[i].body) {
        PlanWords(c, text);
        BodyWordAt(ps, i);
      }
    }
  }

  lemma {:induction false} BodyWordAt(ps: seq<Piece>, i: nat)
    requires i < |ps| && IsWord(ps[i].body)
    ensures ps[i].body in BodyWords(ps)
  {
    if i == 0 {
      WordsOfWord(ps[0].body);
    } else {
      BodyWordAt(ps[1..], i - 1);
    }
  }

  /** The documented promise: chunks of at most `chunk_size`, for texts without overlong words. */
  ghost predicate KeepsSizePromise(c: Chunker)
    requires c.Valid()
  {
    forall text | AllWithin(c.chunkSize, Words(text)) :: AllWithin(c.chunkSize, Chunks(c, text))
  }

  function Repeat(ch: char, n: nat): (s: string)
    ensures |s| == n && forall x | x in s :: x == ch
  {
    if n == 0 then "" else Repeat(ch, n - 1) + [ch]
  }

  /** The promise holds for all such texts exactly when overlap is off. */
  lemma SizePromiseNeedsNoOverlap(c: Chunker)
    requires c.Valid()
    ensures KeepsSizePromise(c) <==> c.overlap == 0
  {
    if c.overlap == 0 {
      forall text | AllWithin(c.chunkSize, Words(text)) ensures AllWithin(c.chunkSize, Chunks(c, text)) {
        SizeHoldsWithoutOverlap(c, text);
      }
    } else {
      var s := Repeat('x', c.chunkSize - 1) + ".";
      RepeatedWord(s, c.chunkSize - 1);
      FullWordTwice(c, s);
      assert !AllWithin(c.chunkSize, Chunks(c, s + " " + s));
    }
  }

  lemma FullWordTwice(c: Chunker, s: string)
    requires c.Valid() && 0 < c.overlap && IsWord(s) && EndsSentence(s) && |s| == c.chunkSize
    ensures AllWithin(c.chunkSize, Words(s + " " + s))
    ensures !AllWithin(c.chunkSize, Chunks(c, s + " " + s))
  {
    TwoSentences(s);
    WordsOfWord(s);
    WordsOfJoin(s, s);
    OverlapOverflows(c, s);
    assert Chunks(c, s + " " + s)[1] in Chunks(c, s + " " + s);
  }

  lemma RepeatedWord(s: string, n: nat)
    requires s == Repeat('x', n) + "."
    ensures |s| == n + 1 && IsWord(s) && EndsSentence(s)
  {
    assert forall i :: 0 <= i < n ==> s[i] in Repeat('x', n);
  }

  lemma FirstBreakIs(text: string, i: nat)
    requires i <= |text| && (i < |text| ==> BreakAt(text, i)) && forall j: nat :: j < i ==> !BreakAt(text, j)
    ensures FirstBreak(text, 0) == i
  {
  }

  lemma TwoSentences(s: string)
    requires IsWord(s) && EndsSentence(s)
    ensures Sentences(s + " " + s) == [s, s]
  {
    var text := s + " " + s;
    assert IsSpace(' ');
    assert forall i :: 0 <= i < |s| ==> s[i] in s && text[i] == s[i];
    FirstBreakIs(text, |s|);
    FirstBreakIs(s, |s|);
    assert text[|s| + 1] == s[0];
    assert SpaceEnd(text, |s|) == |s| + 1;
    assert text[..|s|] == s && text[|s| + 1..] == s;
    assert Parts(text) == [s] + Parts(s) == [s, s];
    WordIsStripped(s);
    FilterAll([s, s], p => !Blank(p));
  }

  lemma TailOfWord(overlap: int, s: string)
    requires 0 < overlap <= |s| && IsWord(s)
    ensures Tail(overlap, s) == s[|s| - overlap..]
  {
    var tail := LastN(s, overlap);
    assert IsSpace(' ');
    assert forall i :: 0 <= i < |tail| ==> tail[i] in s;
  }

  lemma OverlapOverflows(c: Chunker, s: string)
    requires c.Valid() && 0 < c.overlap && IsWord(s) && |s| == c.chunkSize
    requires Sentences(s + " " + s) == [s, s]
    ensures |Chunks(c, s + " " + s)| == 2 && |Chunks(c, s + " " + s)[1]| == c.chunkSize + c.overlap + 1
  {
    WordIsStripped(s);
    TailOfWord(c.overlap, s);
    var tail := Tail(c.overlap, s);
    var one, two := Piece("", s, Whole([s])), Piece(tail + " ", s, Whole([s]));
    FullSentences(c, s);
    NonBlankText(two);
    assert Plan(c, s + " " + s) == [one, two];
    CarriedWordIsStripped(tail, s);
    assert two.Text() == tail + " " + s;
  }

  /** Two sentences that fill a chunk each: the second starts a new piece behind a carried tail. */
  lemma FullSentences(c: Chunker, s: string)
    requires c.Valid() && 0 < c.overlap && !Blank(s) && |s| == c.chunkSize
    ensures AddSentences(c, [s, s]) == Packing([Piece("", s, Whole([s]))], Piece(Tail(c.overlap, s) + " ", s, Whole([s])))
  {
    var one := Piece("", s, Whole([s]));
    assert one.Text() == s;
    assert [s, s][..1] == [s] && [s][..0] == [];
    assert AddSentences(c, [s]) == AddSentence(c, Packing([], NOTHING), s) == Packing([], one);
    assert AddSentences(c, [s, s]) == AddSentence(c, Packing([], one), s);
    assert Flush(one) == [one];
  }

  lemma CarriedWordIsStripped(tail: string, s: string)
    requires tail != "" && IsWord(s) && tail[0] in s
    ensures Strip(tail + " " + s) == tail + " " + s
  {
    var x := tail + " " + s;
    assert x[0] == tail[0] && x[|x| - 1] == s[|s| - 1] && s[|s| - 1] in s;
    StripFacts(x);
  }
}
