/** Packing sentences into overlapping chunks, and splitting sentences that are too long. */
module Chunker {
  import opened Collections
  import opened Text

  datatype Chunker = Chunker(chunkSize: int, overlap: int) {
    predicate Valid() {
      0 < chunkSize && 0 <= overlap < chunkSize
    }
  }

  datatype Created = Made(chunker: Chunker) | ValueError(message: string)

  /** Construction succeeds exactly for parameters that make sense. */
  function Create(chunkSize: int, overlap: int): (r: Created)
    ensures r.Made? <==> 0 <= overlap < chunkSize
    ensures r.Made? ==> r.chunker.chunkSize == chunkSize && r.chunker.overlap == overlap && r.chunker.Valid()
  {
    if chunkSize <= 0 then ValueError("chunk_size must be positive")
    else if overlap < 0 then ValueError("overlap must be non-negative")
    else if overlap >= chunkSize then ValueError("overlap must be less than chunk_size")
    else Made(Chunker(chunkSize, overlap))
  }

  // -------------------------------------------------------- long sentences

  function Extend(current: string, next: string): string {
    if current != "" then current + " " + next else next
  }

  function Flushed(current: string): seq<string> {
    if Blank(current) then [] else [Strip(current)]
  }

  /** The chunks finished so far and the one being filled. */
  datatype Filling = Filling(done: seq<string>, current: string)

  function AddWord(size: int, f: Filling, w: string): Filling {
    if |Extend(f.current, w)| <= size then Filling(f.done, Extend(f.current, w))
    else if |w| > size then Filling(f.done + Flushed(f.current) + [w], "")
    else Filling(f.done + Flushed(f.current), w)
  }

  function AddWords(size: int, words: seq<string>): Filling {
    if words == [] then Filling([], "") else AddWord(size, AddWords(size, words[..|words| - 1]), words[|words| - 1])
  }

  function PackWords(size: int, words: seq<string>): seq<string> {
    AddWords(size, words).done + Flushed(AddWords(size, words).current)
  }

  method SplitLongSentence(c: Chunker, sentence: string) returns (chunks: seq<string>)
    ensures chunks == PackWords(c.chunkSize, Words(sentence))
  {
    var words := Words(sentence);
    chunks := [];
    var current := "";
    for i := 0 to |words|
      invariant chunks == AddWords(c.chunkSize, words[..i]).done
      invariant current == AddWords(c.chunkSize, words[..i]).current
    {
      var word := words[i];
      AddWordsNext(c.chunkSize, words, i);
      var candidate := if current != "" then current + " " + word else word;
      if |candidate| <= c.chunkSize {
        current := candidate;
      } else {
        chunks := FlushChunk(chunks, current);
        if |word| > c.chunkSize {
          chunks := chunks + [word];
          current := "";
        } else {
          current := word;
        }
      }
    }
    assert words[..|words|] == words;
    chunks := FlushChunk(chunks, current);
  }

  /** `if current.strip(): chunks.append(current.strip())`. */
  method FlushChunk(chunks: seq<string>, current: string) returns (r: seq<string>)
    ensures r == chunks + Flushed(current)
  {
    FlushedIs(current);
    r := chunks;
    if Strip(current) != "" {
      r := r + [Strip(current)];
    }
  }

  lemma AddWordsNext(size: int, words: seq<string>, i: nat)
    requires i < |words|
    ensures AddWords(size, words[..i + 1]) == AddWord(size, AddWords(size, words[..i]), words[i])
  {
    assert words[..i + 1][..i] == words[..i];
  }

  lemma ExtendWords(current: string, next: string)
    ensures Words(Extend(current, next)) == Words(current) + Words(next)
  {
    if current != "" {
      WordsOfJoin(current, next);
    }
  }

  lemma AllWordsOne(s: string)
    ensures AllWords([s]) == Words(s)
  {
    assert [s][1..] == [];
  }

  lemma FlushedWords(current: string)
    ensures AllWords(Flushed(current)) == Words(current)
  {
    BlankHasNoWords(current);
    StripFacts(current);
    AllWordsOne(Strip(current));
  }

  lemma FlushKeepsWords(done: seq<string>, current: string)
    ensures AllWords(done + Flushed(current)) == AllWords(done) + Words(current)
  {
    FlushedWords(current);
    AllWordsConcat(done, Flushed(current));
  }

  lemma AddWordKeepsWords(size: int, f: Filling, w: string)
    requires IsWord(w)
    ensures var g := AddWord(size, f, w);
      AllWords(g.done) + Words(g.current) == AllWords(f.done) + Words(f.current) + [w]
  {
    WordsOfWord(w);
    if |Extend(f.current, w)| <= size {
      ExtendWords(f.current, w);
      Assoc(AllWords(f.done), Words(f.current), [w]);
    } else {
      FlushKeepsWords(f.done, f.current);
      if |w| > size {
        AllWordsConcat(f.done + Flushed(f.current), [w]);
        AllWordsOne(w);
      }
    }
  }

  lemma {:induction false} AddWordsKeepsWords(size: int, words: seq<string>)
    requires forall w | w in words :: IsWord(w)
    ensures var f := AddWords(size, words); AllWords(f.done) + Words(f.current) == words
  {
    if words != [] {
      var init, w := words[..|words| - 1], words[|words| - 1];
      AddWordsKeepsWords(size, init);
      AddWordKeepsWords(size, AddWords(size, init), w);
      assert words == init + [w];
    }
  }

  /** Splitting at words loses and reorders nothing. */
  lemma PackWordsKeepsWords(size: int, words: seq<string>)
    requires forall w | w in words :: IsWord(w)
    ensures AllWords(PackWords(size, words)) == words
  {
    var f := AddWords(size, words);
    AddWordsKeepsWords(size, words);
    FlushedWords(f.current);
    AllWordsConcat(f.done, Flushed(f.current));
  }

  /** A chunk of acceptable length, or a word that is too long by itself. */
  predicate FitsOrWord(size: int, chunk: string) {
    && chunk != "" && Stripped(chunk)
    && (|chunk| <= size || IsWord(chunk))
  }

  lemma FlushedFits(size: int, current: string)
    requires |current| <= size
    ensures forall x | x in Flushed(current) :: FitsOrWord(size, x)
  {
    StripFacts(current);
  }

  lemma WordIsStripped(w: string)
    requires IsWord(w)
    ensures Stripped(w) && !Blank(w) && Strip(w) == w
  {
    assert w[0] in w && w[|w| - 1] in w;
    StripFacts(w);
  }

  lemma {:induction false} AddWordsFits(size: int, words: seq<string>)
    requires 0 < size
    requires forall w | w in words :: IsWord(w)
    ensures |AddWords(size, words).current| <= size
    ensures forall x | x in AddWords(size, words).done :: FitsOrWord(size, x)
  {
    if words != [] {
      var init, w := words[..|words| - 1], words[|words| - 1];
      AddWordsFits(size, init);
      FlushedFits(size, AddWords(size, init).current);
      WordIsStripped(w);
    }
  }

  // ---------------------------------------------------------------- overlap

  /** The part of `previous` that overlap repeats: its last characters, from the first whole
      word when they contain a blank. */
  function Tail(overlap: int, previous: string): string
    requires 0 <= overlap
  {
    var tail := LastN(previous, overlap);
    match IndexOf(tail, ' ')
    case Some(i) => tail[i + 1..]
    case None => tail
  }

  function ApplyOverlap(overlap: int, previous: string, next: string): string {
    if overlap <= 0 || previous == "" then next else Tail(overlap, previous) + " " + next
  }

  // ---------------------------------------------------------------- packing

  /** What a piece is made of: whole sentences, or the chunk with that index of a sentence that is too
      long for one. */
  datatype Origin = Whole(sentences: seq<string>) | PartOf(sentence: string, index: nat)

  /** A chunk before stripping: what overlap carried in, then its own text. */
  datatype Piece = Piece(carry: string, body: string, origin: Origin) {
    function Text(): string {
      carry + body
    }

    function Chunk(): string {
      Strip(Text())
    }
  }

  const NOTHING := Piece("", "", Whole([]))

  function Longer(o: Origin, sentence: string): Origin {
    match o
    case Whole(ss) => Whole(ss + [sentence])
    case PartOf(_, _) => Whole([sentence])
  }

  function Grow(current: Piece, sentence: string): Piece {
    if current.Text() != "" then
      Piece(current.carry, current.body + " " + sentence, Longer(current.origin, sentence))
    else
      Piece("", sentence, Whole([sentence]))
  }

  function NextPiece(overlap: int, previous: Piece, sentence: string): Piece {
    Piece(if overlap <= 0 || previous.Text() == "" then "" else Tail(overlap, previous.Text()) + " ",
          sentence, Whole([sentence]))
  }

  function Flush(current: Piece): seq<Piece> {
    if Blank(current.Text()) then [] else [current]
  }

  /** The chunks of a long sentence, as pieces. */
  function CutPieces(sentence: string, chunks: seq<string>): (ps: seq<Piece>)
    ensures |ps| == |chunks|
    ensures forall i :: 0 <= i < |ps| ==> ps[i] == Piece("", chunks[i], PartOf(sentence, i))
  {
    seq(|chunks|, i requires 0 <= i < |chunks| => Piece("", chunks[i], PartOf(sentence, i)))
  }

  function LongPieces(size: int, sentence: string): seq<Piece> {
    CutPieces(sentence, PackWords(size, Words(sentence)))
  }

  /** The pieces finished so far and the one being filled. */
  datatype Packing = Packing(done: seq<Piece>, current: Piece)

  function AddSentence(c: Chunker, k: Packing, s: string): Packing
    requires c.Valid()
  {
    if |s| > c.chunkSize then
      Packing(k.done + Flush(k.current) + LongPieces(c.chunkSize, s),
              if Blank(k.current.Text()) then k.current else NOTHING)
    else if |Grow(k.current, s).Text()| <= c.chunkSize then
      Packing(k.done, Grow(k.current, s))
    else
      Packing(k.done + Flush(k.current), NextPiece(c.overlap, k.current, s))
  }

  function AddSentences(c: Chunker, ss: seq<string>): Packing
    requires c.Valid()
  {
    if ss == [] then Packing([], NOTHING)
    else AddSentence(c, AddSentences(c, ss[..|ss| - 1]), ss[|ss| - 1])
  }

  /** The pieces of which the chunks are made. */
  function Plan(c: Chunker, text: string): seq<Piece>
    requires c.Valid()
  {
    var k := AddSentences(c, Sentences(text));
    k.done + Flush(k.current)
  }

  function Chunks(c: Chunker, text: string): seq<string>
    requires c.Valid()
  {
    Rendered(Plan(c, text))
  }

  function Rendered(ps: seq<Piece>): seq<string> {
    Map(ps, (p: Piece) => p.Chunk())
  }

  lemma RenderedConcat(a: seq<Piece>, b: seq<Piece>)
    ensures Rendered(a + b) == Rendered(a) + Rendered(b)
  {
    MapConcat(a, b, (p: Piece) => p.Chunk());
  }

  lemma RenderedFlush(current: Piece)
    ensures Rendered(Flush(current)) == Flushed(current.Text())
  {
  }

  lemma RenderedLong(size: int, sentence: string)
    requires 0 < size
    ensures Rendered(LongPieces(size, sentence)) == PackWords(size, Words(sentence))
  {
    WordsAreWords(sentence);
    PackWordsFits(size, Words(sentence));
    var xs := PackWords(size, Words(sentence));
    forall i | 0 <= i < |xs| ensures Rendered(LongPieces(size, sentence))[i] == xs[i] {
      assert xs[i] in xs;
      StripFacts(xs[i]);
      assert LongPieces(size, sentence)[i].Text() == xs[i];
    }
  }

  lemma PackWordsFits(size: int, words: seq<string>)
    requires 0 < size
    requires forall w | w in words :: IsWord(w)
    ensures forall x | x in PackWords(size, words) :: FitsOrWord(size, x)
  {
    AddWordsFits(size, words);
    FlushedFits(size, AddWords(size, words).current);
  }

  method Chunk(c: Chunker, text: string) returns (chunks: seq<string>)
    requires c.Valid()
    ensures chunks == Chunks(c, text)
  {
    StripFacts(text);
    if text == "" || Strip(text) == "" {
      BlankGivesNothing(c, text);
      return [];
    }
    var sentences := Sentences(text);
    if sentences == [] {
      ChunksAre(c, text);
      return [];
    }
    chunks := [];
    var currentChunk := "";
    ghost var k := Packing([], NOTHING);
    for i := 0 to |sentences|
      invariant k == AddSentences(c, sentences[..i])
      invariant chunks == Rendered(k.done) && currentChunk == k.current.Text()
    {
      var sentence := sentences[i];
      RenderedStep(c, k, sentence);
      AddSentencesNext(c, sentences, i);
      k := AddSentences(c, sentences[..i + 1]);
      if |sentence| > c.chunkSize {
        FlushedIs(currentChunk);
        chunks := FlushChunk(chunks, currentChunk);
        if Strip(currentChunk) != "" {
          currentChunk := "";
        }
        var pieces := SplitLongSentence(c, sentence);
        chunks := chunks + pieces;
      } else {
        var candidate := if currentChunk != "" then currentChunk + " " + sentence else sentence;
        if |candidate| <= c.chunkSize {
          currentChunk := candidate;
        } else {
          chunks := FlushChunk(chunks, currentChunk);
          currentChunk := ApplyOverlap(c.overlap, currentChunk, sentence);
        }
      }
    }
    assert sentences[..|sentences|] == sentences;
    ChunksAre(c, text);
    chunks := FlushChunk(chunks, currentChunk);
  }

  lemma ChunksAre(c: Chunker, text: string)
    requires c.Valid()
    ensures var k := AddSentences(c, Sentences(text));
      Chunks(c, text) == Rendered(k.done) + Flushed(k.current.Text())
    ensures Sentences(text) == [] ==> Chunks(c, text) == []
  {
    var k := AddSentences(c, Sentences(text));
    RenderedConcat(k.done, Flush(k.current));
    RenderedFlush(k.current);
  }

  lemma AddSentencesNext(c: Chunker, ss: seq<string>, i: nat)
    requires c.Valid() && i < |ss|
    ensures AddSentences(c, ss[..i + 1]) == AddSentence(c, AddSentences(c, ss[..i]), ss[i])
  {
    assert ss[..i + 1][..i] == ss[..i];
  }

  lemma FlushedIs(current: string)
    ensures Flushed(current) == if Strip(current) != "" then [Strip(current)] else []
    ensures Blank(current) <==> Strip(current) == ""
  {
    StripFacts(current);
  }

  /** One sentence, seen through the strings the loop works on. */
  lemma RenderedStep(c: Chunker, k: Packing, s: string)
    requires c.Valid()
    ensures var n, text := AddSentence(c, k, s), k.current.Text();
      if |s| > c.chunkSize then
        && Rendered(n.done) == Rendered(k.done) + Flushed(text) + PackWords(c.chunkSize, Words(s))
        && n.current.Text() == (if Blank(text) then text else "")
      else if |Extend(text, s)| <= c.chunkSize then
        n.done == k.done && n.current.Text() == Extend(text, s)
      else
        && Rendered(n.done) == Rendered(k.done) + Flushed(text)
        && n.current.Text() == ApplyOverlap(c.overlap, text, s)
  {
    GrowText(k.current, s);
    NextPieceText(c.overlap, k.current, s);
    RenderedFlush(k.current);
    RenderedConcat(k.done, Flush(k.current));
    RenderedConcat(k.done + Flush(k.current), LongPieces(c.chunkSize, s));
    RenderedLong(c.chunkSize, s);
  }

  lemma GrowText(p: Piece, s: string)
    ensures Grow(p, s).Text() == Extend(p.Text(), s)
  {
    assert p.carry + (p.body + " " + s) == p.carry + p.body + " " + s;
  }

  lemma NextPieceText(overlap: int, p: Piece, s: string)
    ensures NextPiece(overlap, p, s).Text() == ApplyOverlap(overlap, p.Text(), s)
  {
  }

  lemma BlankGivesNothing(c: Chunker, text: string)
    requires c.Valid() && Blank(text)
    ensures Sentences(text) == [] && Chunks(c, text) == []
  {
    SentencesKeepWords(text);
    BlankHasNoWords(text);
    var ss := Sentences(text);
    if ss != [] {
      BlankHasNoWords(ss[0]);
    }
  }
}
