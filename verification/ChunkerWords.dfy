/** Packing sentences into pieces loses and reorders no word. */
module ChunkerWords {
  import opened Collections
  import opened Text
  import opened Chunker

  /** The words of the text proper, carried tails left aside. */
  function BodyWords(ps: seq<Piece>): seq<string> {
    if ps == [] then [] else Words(ps[0].body) + BodyWords(ps[1..])
  }

  function PackedWords(k: Packing): seq<string> {
    BodyWords(k.done) + Words(k.current.body)
  }

  /** The current piece is nothing yet, or holds something of its own. */
  predicate Started(p: Piece) {
    p == NOTHING || !Blank(p.body)
  }

  lemma {:induction false} BodyWordsConcat(a: seq<Piece>, b: seq<Piece>)
    ensures BodyWords(a + b) == BodyWords(a) + BodyWords(b)
  {
    if a == [] {
      assert a + b == b;
    } else {
      assert (a + b)[1..] == a[1..] + b;
      BodyWordsConcat(a[1..], b);
    }
  }

  lemma BodyWordsOne(p: Piece)
    ensures BodyWords([p]) == Words(p.body)
  {
    assert [p][1..] == [];
  }

  lemma {:induction false} BodyWordsCut(sentence: string, xs: seq<string>)
    ensures BodyWords(CutPieces(sentence, xs)) == AllWords(xs)
  {
    if xs != [] {
      var init, x := xs[..|xs| - 1], xs[|xs| - 1];
      var p := Piece("", x, PartOf(sentence, |init|));
      BodyWordsCut(sentence, init);
      assert CutPieces(sentence, xs) == CutPieces(sentence, init) + [p];
      BodyWordsConcat(CutPieces(sentence, init), [p]);
      BodyWordsOne(p);
      InitLast(xs);
      AllWordsSnoc(init, x);
    }
  }

  lemma NonBlankText(p: Piece)
    requires !Blank(p.body)
    ensures !Blank(p.Text()) && p.Text() != ""
  {
    var ch :| ch in p.body && !IsSpace(ch);
    assert ch in p.Text();
  }

  lemma NonBlankJoin(a: string, s: string)
    requires !Blank(s)
    ensures !Blank(a + " " + s)
  {
    var ch :| ch in s && !IsSpace(ch);
    assert ch in a + " " + s;
  }

  lemma FlushIs(p: Piece)
    requires Started(p)
    ensures Flush(p) == if p == NOTHING then [] else [p]
    ensures p != NOTHING ==> p.Text() != ""
  {
    if p != NOTHING {
      NonBlankText(p);
    }
  }

  /** Flushing moves the words of the current piece to the finished ones. */
  lemma FlushWords(done: seq<Piece>, p: Piece)
    requires Started(p)
    ensures BodyWords(done + Flush(p)) == BodyWords(done) + Words(p.body)
  {
    FlushIs(p);
    BodyWordsConcat(done, Flush(p));
    assert [p][1..] == [];
  }

  lemma LongPiecesWords(size: int, s: string)
    ensures BodyWords(LongPieces(size, s)) == Words(s)
  {
    WordsAreWords(s);
    PackWordsKeepsWords(size, Words(s));
    BodyWordsCut(s, PackWords(size, Words(s)));
  }

  lemma GrowPiece(p: Piece, s: string)
    requires Started(p) && !Blank(s)
    ensures Words(Grow(p, s).body) == Words(p.body) + Words(s)
    ensures Grow(p, s).carry == p.carry && !Blank(Grow(p, s).body)
  {
    FlushIs(p);
    if p != NOTHING {
      NonBlankJoin(p.body, s);
      WordsOfJoin(p.body, s);
    }
  }

  lemma AddLongWords(c: Chunker, k: Packing, s: string)
    requires c.Valid() && Started(k.current) && |s| > c.chunkSize
    ensures PackedWords(AddSentence(c, k, s)) == PackedWords(k) + Words(s)
    ensures AddSentence(c, k, s).current == NOTHING
  {
    FlushIs(k.current);
    FlushWords(k.done, k.current);
    if k.current != NOTHING {
      NonBlankText(k.current);
    }
    var done := k.done + Flush(k.current);
    BodyWordsConcat(done, LongPieces(c.chunkSize, s));
    LongPiecesWords(c.chunkSize, s);
    assert AddSentence(c, k, s) == Packing(done + LongPieces(c.chunkSize, s), NOTHING);
    assert Words(NOTHING.body) == [];
  }

  lemma AddGrowingWords(c: Chunker, k: Packing, s: string)
    requires c.Valid() && Started(k.current) && !Blank(s)
    ensures PackedWords(Packing(k.done, Grow(k.current, s))) == PackedWords(k) + Words(s)
  {
    GrowPiece(k.current, s);
    Assoc(BodyWords(k.done), Words(k.current.body), Words(s));
  }

  /** A sentence adds exactly its words. */
  lemma AddSentenceWords(c: Chunker, k: Packing, s: string)
    requires c.Valid() && Started(k.current) && !Blank(s)
    ensures PackedWords(AddSentence(c, k, s)) == PackedWords(k) + Words(s)
    ensures Started(AddSentence(c, k, s).current)
  {
    if |s| > c.chunkSize {
      AddLongWords(c, k, s);
    } else if |Grow(k.current, s).Text()| <= c.chunkSize {
      GrowPiece(k.current, s);
      AddGrowingWords(c, k, s);
    } else {
      FlushWords(k.done, k.current);
    }
  }

  lemma AllWordsSnoc(ss: seq<string>, s: string)
    ensures AllWords(ss + [s]) == AllWords(ss) + Words(s)
  {
    AllWordsConcat(ss, [s]);
    AllWordsOne(s);
  }

  lemma {:induction false} AddSentencesWords(c: Chunker, ss: seq<string>)
    requires c.Valid() && forall s | s in ss :: !Blank(s)
    ensures PackedWords(AddSentences(c, ss)) == AllWords(ss)
    ensures Started(AddSentences(c, ss).current)
  {
    if ss != [] {
      var init, s := ss[..|ss| - 1], ss[|ss| - 1];
      assert ss == init + [s];
      AddSentencesWords(c, init);
      AddSentenceWords(c, AddSentences(c, init), s);
      AllWordsSnoc(init, s);
    }
  }

  lemma PlanWords(c: Chunker, text: string)
    requires c.Valid()
    ensures BodyWords(Plan(c, text)) == Words(text)
  {
    var k := AddSentences(c, Sentences(text));
    SentencesKeepWords(text);
    AddSentencesWords(c, Sentences(text));
    FlushWords(k.done, k.current);
  }
}
