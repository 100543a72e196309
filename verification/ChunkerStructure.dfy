/** What the pieces of a text are, told without the packing: how each is made, how each meets the one
    before, and that together they use up the sentences. No other pieces are like that. */
module ChunkerStructure {
  import opened Collections
  import opened Text
  import opened Chunker
  import opened ChunkerWords

  /** The sentences that a piece brings; of those too long for one piece, the first piece does. */
  function Source(p: Piece): seq<string> {
    match p.origin
    case Whole(ss) => ss
    case PartOf(s, k) => if k == 0 then [s] else []
  }

  function Sources(ps: seq<Piece>): seq<string> {
    if ps == [] then [] else Sources(ps[..|ps| - 1]) + Source(ps[|ps| - 1])
  }

  function Split(c: Chunker, sentence: string): seq<string> {
    PackWords(c.chunkSize, Words(sentence))
  }

  /** Whole sentences joined by blanks, that fit together if there are several; or one chunk of a
      sentence that does not fit, carrying nothing. */
  predicate PieceOk(c: Chunker, p: Piece) {
    match p.origin
    case Whole(ss) =>
      && ss != [] && p.body == Join(ss)
      && (forall s | s in ss :: !Blank(s) && |s| <= c.chunkSize)
      && (|ss| > 1 ==> |p.Text()| <= c.chunkSize)
    case PartOf(s, k) =>
      && !Blank(s) && |s| > c.chunkSize
      && p.carry == "" && k < |Split(c, s)| && p.body == Split(c, s)[k]
  }

  /** Not a chunk of a long sentence with more to come. */
  predicate Closed(c: Chunker, p: Piece) {
    p.origin.PartOf? ==> p.origin.index + 1 == |Split(c, p.origin.sentence)|
  }

  /** How a piece meets the one before it. Between pieces of whole sentences the cut is forced, as the
      next sentence would not fit, and with overlap the tail of the piece before is carried over;
      the chunks of a long sentence follow one another. Nothing else is carried. */
  predicate Meets(c: Chunker, before: Option<Piece>, p: Piece)
    requires c.Valid()
  {
    if p.origin.PartOf? && p.origin.index > 0 then
      before.Some? && before.value.origin == PartOf(p.origin.sentence, p.origin.index - 1)
    else
      && (before.Some? ==> Closed(c, before.value))
      && (p.origin.Whole? ==> p.origin.sentences != [])
      && if p.origin.Whole? && before.Some? && before.value.origin.Whole? then
           && |before.value.Text()| + 1 + |p.origin.sentences[0]| > c.chunkSize
           && p.carry == if c.overlap > 0 then Tail(c.overlap, before.value.Text()) + " " else ""
         else
           p.carry == ""
  }

  function Last(ps: seq<Piece>): Option<Piece> {
    if ps == [] then None else Some(ps[|ps| - 1])
  }

  predicate Ordered(c: Chunker, ps: seq<Piece>)
    requires c.Valid()
  {
    ps == []
    || (&& Ordered(c, ps[..|ps| - 1])
        && PieceOk(c, ps[|ps| - 1]) && Meets(c, Last(ps[..|ps| - 1]), ps[|ps| - 1]))
  }

  /** Place by place. */
  lemma {:induction false} OrderedAt(c: Chunker, ps: seq<Piece>, i: nat)
    requires c.Valid() && Ordered(c, ps) && i < |ps|
    ensures PieceOk(c, ps[i]) && Meets(c, if i == 0 then None else Some(ps[i - 1]), ps[i])
    decreases |ps|
  {
    if i < |ps| - 1 {
      OrderedAt(c, ps[..|ps| - 1], i);
    }
  }

  /** Well-made pieces that use up the sentences in order. */
  predicate CutsUp(c: Chunker, ss: seq<string>, ps: seq<Piece>)
    requires c.Valid()
  {
    Ordered(c, ps) && Sources(ps) == ss && (ps != [] ==> Closed(c, ps[|ps| - 1]))
  }

  lemma OrderedSnoc(c: Chunker, ps: seq<Piece>, p: Piece)
    requires c.Valid()
    ensures Ordered(c, ps + [p]) <==> Ordered(c, ps) && PieceOk(c, p) && Meets(c, Last(ps), p)
    ensures Sources(ps + [p]) == Sources(ps) + Source(p)
  {
    assert (ps + [p])[..|ps|] == ps;
  }

  lemma CutSnoc(sentence: string, xs: seq<string>, k: nat)
    requires k < |xs|
    ensures CutPieces(sentence, xs[..k + 1])
         == CutPieces(sentence, xs[..k]) + [Piece("", xs[k], PartOf(sentence, k))]
  {
  }

  function Part(c: Chunker, s: string, k: nat): Piece
    requires k < |Split(c, s)|
  {
    Piece("", Split(c, s)[k], PartOf(s, k))
  }

  /** One more chunk of a long sentence. */
  lemma PartFollows(c: Chunker, ps: seq<Piece>, s: string, k: nat)
    requires c.Valid() && Ordered(c, ps) && !Blank(s) && |s| > c.chunkSize && k < |Split(c, s)|
    requires k == 0 && ps != [] ==> Closed(c, ps[|ps| - 1])
    requires k > 0 ==> ps != [] && ps[|ps| - 1].origin == PartOf(s, k - 1)
    ensures Ordered(c, ps + [Part(c, s, k)])
    ensures k == 0 ==> Sources(ps + [Part(c, s, k)]) == Sources(ps) + [s]
    ensures k > 0 ==> Sources(ps + [Part(c, s, k)]) == Sources(ps)
  {
    OrderedSnoc(c, ps, Part(c, s, k));
    assert Sources(ps) + [] == Sources(ps);
  }

  lemma CutOneMore(c: Chunker, ps: seq<Piece>, s: string, k: nat)
    requires k < |Split(c, s)|
    ensures ps + CutPieces(s, Split(c, s)[..k + 1]) == (ps + CutPieces(s, Split(c, s)[..k])) + [Part(c, s, k)]
  {
    CutSnoc(s, Split(c, s), k);
    Assoc(ps, CutPieces(s, Split(c, s)[..k]), [Part(c, s, k)]);
  }

  lemma CutNone(c: Chunker, ps: seq<Piece>, s: string)
    ensures ps + CutPieces(s, Split(c, s)[..0]) == ps
  {
  }

  /** `ps` and behind it the first `k` chunks of a long sentence. */
  lemma {:induction false} PartsFollow(c: Chunker, ps: seq<Piece>, s: string, k: nat) returns (all: seq<Piece>)
    requires c.Valid() && Ordered(c, ps) && !Blank(s) && |s| > c.chunkSize && k <= |Split(c, s)|
    requires ps != [] ==> Closed(c, ps[|ps| - 1])
    ensures all == ps + CutPieces(s, Split(c, s)[..k])
    ensures Ordered(c, all)
    ensures k == 0 ==> all == ps
    ensures k > 0 ==> Sources(all) == Sources(ps) + [s] && all != [] && all[|all| - 1].origin == PartOf(s, k - 1)
  {
    if k == 0 {
      all := ps;
      CutNone(c, ps, s);
    } else {
      var before := PartsFollow(c, ps, s, k - 1);
      PartFollows(c, before, s, k - 1);
      CutOneMore(c, ps, s, k - 1);
      all := before + [Part(c, s, k - 1)];
    }
  }

  lemma SplitIsNotEmpty(c: Chunker, s: string)
    requires !Blank(s)
    ensures Split(c, s) != []
  {
    WordsAreWords(s);
    PackWordsKeepsWords(c.chunkSize, Words(s));
    BlankHasNoWords(s);
  }

  lemma LongFollows(c: Chunker, ss: seq<string>, ps: seq<Piece>, s: string)
    requires c.Valid() && CutsUp(c, ss, ps) && !Blank(s) && |s| > c.chunkSize
    ensures var all := ps + LongPieces(c.chunkSize, s);
      CutsUp(c, ss + [s], all) && all != [] && all[|all| - 1].origin.PartOf?
  {
    SplitIsNotEmpty(c, s);
    var all := PartsFollow(c, ps, s, |Split(c, s)|);
    assert Split(c, s)[..|Split(c, s)|] == Split(c, s);
  }

  /** Packing in progress: without a current piece, what came before is nothing or a long sentence. */
  ghost predicate PackingOk(c: Chunker, ss: seq<string>, k: Packing)
    requires c.Valid()
  {
    && Started(k.current)
    && CutsUp(c, ss, k.done + Flush(k.current))
    && (k.current != NOTHING ==> k.current.origin.Whole?)
    && (k.current == NOTHING ==> k.done == [] || k.done[|k.done| - 1].origin.PartOf?)
  }

  lemma FlushedPieces(k: Packing)
    requires Started(k.current)
    ensures k.done + Flush(k.current) == if k.current == NOTHING then k.done else k.done + [k.current]
  {
    FlushIs(k.current);
    assert k.done + [] == k.done;
  }

  lemma GrowOrigin(p: Piece, s: string)
    requires p != NOTHING && Started(p) && p.origin.Whole?
    ensures Grow(p, s) == Piece(p.carry, p.body + " " + s, Whole(p.origin.sentences + [s]))
  {
    NonBlankText(p);
  }

  /** One more sentence for the current piece. */
  lemma GrowKeepsOk(c: Chunker, ss: seq<string>, done: seq<Piece>, p: Piece, s: string)
    requires c.Valid() && p != NOTHING && Started(p) && p.origin.Whole? && CutsUp(c, ss, done + [p])
    requires !Blank(s) && |s| <= c.chunkSize && |Grow(p, s).Text()| <= c.chunkSize
    ensures CutsUp(c, ss + [s], done + [Grow(p, s)])
  {
    var q := Grow(p, s);
    GrowOrigin(p, s);
    OrderedSnoc(c, done, p);
    OrderedSnoc(c, done, q);
    JoinSnoc(p.origin.sentences, s);
    Assoc(Sources(done), p.origin.sentences, [s]);
    assert q.origin.sentences[0] == p.origin.sentences[0];
  }

  /** A sentence that starts a piece. */
  lemma StartKeepsOk(c: Chunker, ss: seq<string>, ps: seq<Piece>, p: Piece, s: string)
    requires c.Valid() && CutsUp(c, ss, ps) && !Blank(s) && |s| <= c.chunkSize
    requires p.body == s && p.origin == Whole([s]) && Meets(c, Last(ps), p)
    ensures CutsUp(c, ss + [s], ps + [p])
  {
    OrderedSnoc(c, ps, p);
  }

  lemma AddLongOk(c: Chunker, ss: seq<string>, k: Packing, s: string)
    requires c.Valid() && PackingOk(c, ss, k) && !Blank(s) && |s| > c.chunkSize
    ensures AddSentence(c, k, s) == Packing(k.done + Flush(k.current) + LongPieces(c.chunkSize, s), NOTHING)
    ensures PackingOk(c, ss + [s], AddSentence(c, k, s))
  {
    AddLongWords(c, k, s);
    LongFollows(c, ss, k.done + Flush(k.current), s);
    FlushedPieces(AddSentence(c, k, s));
  }

  /** The first sentence of a text, or after a long one. */
  lemma AddFirstOk(c: Chunker, ss: seq<string>, k: Packing, s: string)
    requires c.Valid() && PackingOk(c, ss, k) && !Blank(s) && |s| <= c.chunkSize && k.current == NOTHING
    ensures AddSentence(c, k, s) == Packing(k.done, Piece("", s, Whole([s])))
    ensures PackingOk(c, ss + [s], AddSentence(c, k, s))
  {
    var p := Piece("", s, Whole([s]));
    assert Grow(k.current, s) == p && p.Text() == s;
    FlushedPieces(k);
    FlushedPieces(Packing(k.done, p));
    StartKeepsOk(c, ss, k.done, p, s);
  }

  lemma AddGrowingOk(c: Chunker, ss: seq<string>, k: Packing, s: string)
    requires c.Valid() && PackingOk(c, ss, k) && !Blank(s) && |s| <= c.chunkSize && k.current != NOTHING
    requires |k.current.Text()| + 1 + |s| <= c.chunkSize
    ensures AddSentence(c, k, s) == Packing(k.done, Grow(k.current, s))
    ensures PackingOk(c, ss + [s], AddSentence(c, k, s))
  {
    GrowOrigin(k.current, s);
    FlushedPieces(k);
    GrowPiece(k.current, s);
    FlushedPieces(Packing(k.done, Grow(k.current, s)));
    GrowKeepsOk(c, ss, k.done, k.current, s);
  }

  lemma AddCutOk(c: Chunker, ss: seq<string>, k: Packing, s: string)
    requires c.Valid() && PackingOk(c, ss, k) && !Blank(s) && |s| <= c.chunkSize && k.current != NOTHING
    requires |k.current.Text()| + 1 + |s| > c.chunkSize
    ensures AddSentence(c, k, s) == Packing(k.done + [k.current], NextPiece(c.overlap, k.current, s))
    ensures NextPiece(c.overlap, k.current, s).carry
         == if c.overlap > 0 then Tail(c.overlap, k.current.Text()) + " " else ""
    ensures PackingOk(c, ss + [s], AddSentence(c, k, s))
  {
    var done, p := k.done + [k.current], NextPiece(c.overlap, k.current, s);
    NonBlankText(k.current);
    GrowOrigin(k.current, s);
    FlushedPieces(k);
    FlushedPieces(Packing(done, p));
    assert Last(done) == Some(k.current);
    StartKeepsOk(c, ss, done, p, s);
  }

  lemma AddSentenceOk(c: Chunker, ss: seq<string>, k: Packing, s: string)
    requires c.Valid() && PackingOk(c, ss, k) && !Blank(s)
    ensures PackingOk(c, ss + [s], AddSentence(c, k, s))
  {
    if |s| > c.chunkSize {
      AddLongOk(c, ss, k, s);
    } else if k.current == NOTHING {
      AddFirstOk(c, ss, k, s);
    } else if |k.current.Text()| + 1 + |s| <= c.chunkSize {
      AddGrowingOk(c, ss, k, s);
    } else {
      AddCutOk(c, ss, k, s);
    }
  }

  lemma {:induction false} AddSentencesOk(c: Chunker, ss: seq<string>)
    requires c.Valid() && forall s | s in ss :: !Blank(s)
    ensures PackingOk(c, ss, AddSentences(c, ss))
  {
    if ss != [] {
      var init, s := ss[..|ss| - 1], ss[|ss| - 1];
      InitLast(ss);
      assert s in ss && forall x | x in init :: x in ss;
      AddSentencesOk(c, init);
      AddSentenceOk(c, init, AddSentences(c, init), s);
    }
  }

  /** The pieces of every text are well made, use up its sentences in order, are cut only where the
      next sentence does not fit, and carry a tail exactly where a piece of whole sentences follows
      another. */
  lemma PlanCutsUp(c: Chunker, text: string)
    requires c.Valid()
    ensures CutsUp(c, Sentences(text), Plan(c, text))
  {
    SentencesKeepWords(text);
    AddSentencesOk(c, Sentences(text));
  }

  // ---------------------------------------------------- there is only one way

  /** What comes before the chunks of a long sentence. */
  lemma {:induction false} UnwindParts(c: Chunker, ps: seq<Piece>, s: string, k: nat) returns (front: seq<Piece>)
    requires c.Valid() && Ordered(c, ps) && ps != [] && ps[|ps| - 1].origin == PartOf(s, k)
    ensures k < |Split(c, s)| && !Blank(s) && |s| > c.chunkSize
    ensures ps == front + CutPieces(s, Split(c, s)[..k + 1])
    ensures Ordered(c, front) && (front != [] ==> Closed(c, front[|front| - 1]))
    ensures Sources(ps) == Sources(front) + [s]
    decreases k
  {
    var init, p := ps[..|ps| - 1], ps[|ps| - 1];
    InitLast(ps);
    if k == 0 {
      front := init;
      CutNone(c, front, s);
    } else {
      front := UnwindParts(c, init, s, k - 1);
      assert Sources(init) + [] == Sources(init);
    }
    CutOneMore(c, front, s, k);
  }

  /** Pieces that end in a long sentence. */
  lemma LastIsLong(c: Chunker, ss: seq<string>, ps: seq<Piece>) returns (front: seq<Piece>)
    requires c.Valid() && CutsUp(c, ss, ps) && ps != [] && ps[|ps| - 1].origin.PartOf?
    ensures var s := ps[|ps| - 1].origin.sentence;
      && ss != [] && ss[|ss| - 1] == s && |s| > c.chunkSize
      && CutsUp(c, ss[..|ss| - 1], front) && ps == front + LongPieces(c.chunkSize, s)
  {
    var o := ps[|ps| - 1].origin;
    front := UnwindParts(c, ps, o.sentence, o.index);
    assert Split(c, o.sentence)[..o.index + 1] == Split(c, o.sentence);
  }

  /** Pieces that end in a single sentence. */
  lemma LastIsSingle(c: Chunker, ss: seq<string>, ps: seq<Piece>)
    requires c.Valid() && CutsUp(c, ss, ps) && ps != []
    requires ps[|ps| - 1].origin.Whole? && |ps[|ps| - 1].origin.sentences| == 1
    ensures var front, p := ps[..|ps| - 1], ps[|ps| - 1];
      && ss != [] && |ss[|ss| - 1]| <= c.chunkSize
      && p == Piece(p.carry, ss[|ss| - 1], Whole([ss[|ss| - 1]]))
      && CutsUp(c, ss[..|ss| - 1], front) && Meets(c, Last(front), p)
  {
    var front, p := ps[..|ps| - 1], ps[|ps| - 1];
    var us := p.origin.sentences;
    assert us[0] in us && us == [us[0]];
    assert ss == Sources(front) + us;
  }

  /** Pieces that end in several sentences: without the last of these. */
  lemma LastIsSeveral(c: Chunker, ss: seq<string>, ps: seq<Piece>) returns (p1: Piece)
    requires c.Valid() && CutsUp(c, ss, ps) && ps != []
    requires ps[|ps| - 1].origin.Whole? && |ps[|ps| - 1].origin.sentences| > 1
    ensures var front, p := ps[..|ps| - 1], ps[|ps| - 1];
      && ss != [] && |ss[|ss| - 1]| <= c.chunkSize
      && |p1.Text()| + 1 + |ss[|ss| - 1]| <= c.chunkSize
      && p1.origin.Whole? && CutsUp(c, ss[..|ss| - 1], front + [p1])
      && p == Piece(p1.carry, p1.body + " " + ss[|ss| - 1], Whole(p1.origin.sentences + [ss[|ss| - 1]]))
  {
    var front, p := ps[..|ps| - 1], ps[|ps| - 1];
    var us := p.origin.sentences;
    var init, s := us[..|us| - 1], us[|us| - 1];
    InitLast(us);
    assert s in us && forall x | x in init :: x in us;
    p1 := Piece(p.carry, Join(init), Whole(init));
    assert p.body == p1.body + " " + s;
    InitLast(ps);
    OrderedSnoc(c, front, p);
    assert init[0] == us[0];
    OrderedSnoc(c, front, p1);
    Assoc(Sources(front), init, [s]);
    assert ss == (Sources(front) + init) + [s];
  }

  function Pieces(k: Packing): seq<Piece> {
    k.done + Flush(k.current)
  }

  lemma OneWayLong(c: Chunker, ss: seq<string>, k: Packing, s: string)
    requires c.Valid() && PackingOk(c, ss, k) && !Blank(s) && |s| > c.chunkSize
    ensures Pieces(AddSentence(c, k, s)) == Pieces(k) + LongPieces(c.chunkSize, s)
  {
    AddLongOk(c, ss, k, s);
    FlushedPieces(AddSentence(c, k, s));
  }

  lemma OneWaySingle(c: Chunker, ss: seq<string>, k: Packing, s: string, p: Piece)
    requires c.Valid() && PackingOk(c, ss, k) && !Blank(s) && |s| <= c.chunkSize
    requires p == Piece(p.carry, s, Whole([s])) && Meets(c, Last(Pieces(k)), p)
    ensures Pieces(AddSentence(c, k, s)) == Pieces(k) + [p]
  {
    FlushedPieces(k);
    if k.current == NOTHING {
      AddFirstOk(c, ss, k, s);
    } else {
      assert Last(Pieces(k)) == Some(k.current);
      AddCutOk(c, ss, k, s);
    }
    FlushedPieces(AddSentence(c, k, s));
  }

  lemma OneWaySeveral(c: Chunker, ss: seq<string>, k: Packing, s: string, front: seq<Piece>, p1: Piece)
    requires c.Valid() && PackingOk(c, ss, k) && !Blank(s) && |s| <= c.chunkSize
    requires Pieces(k) == front + [p1] && p1.origin.Whole? && |p1.Text()| + 1 + |s| <= c.chunkSize
    ensures Pieces(AddSentence(c, k, s))
         == front + [Piece(p1.carry, p1.body + " " + s, Whole(p1.origin.sentences + [s]))]
  {
    FlushedPieces(k);
    assert Last(Pieces(k)) == Some(p1);
    assert Pieces(k)[..|front|] == front;
    assert k.current == p1 && k.done == front;
    AddGrowingOk(c, ss, k, s);
    GrowOrigin(k.current, s);
    FlushedPieces(AddSentence(c, k, s));
  }

  /** Sentences can be cut up in no other way than the packing does. */
  lemma {:induction false} OnlyOneWay(c: Chunker, ss: seq<string>, ps: seq<Piece>)
    requires c.Valid() && CutsUp(c, ss, ps) && forall s | s in ss :: !Blank(s)
    ensures ps == Pieces(AddSentences(c, ss))
    decreases |ss|
  {
    if ps == [] {
      assert Flush(NOTHING) == [];
    } else {
      var front, p := ps[..|ps| - 1], ps[|ps| - 1];
      var smaller, p1 := front, p;
      if p.origin.PartOf? {
        smaller := LastIsLong(c, ss, ps);
      } else if |p.origin.sentences| == 1 {
        LastIsSingle(c, ss, ps);
      } else {
        p1 := LastIsSeveral(c, ss, ps);
        smaller := front + [p1];
      }
      var init, s := ss[..|ss| - 1], ss[|ss| - 1];
      SameButOne(ss);
      OnlyOneWay(c, init, smaller);
      AddSentencesOk(c, init);
      InitLast(ps);
      if p.origin.PartOf? {
        OneWayLong(c, init, AddSentences(c, init), s);
      } else if |p.origin.sentences| == 1 {
        OneWaySingle(c, init, AddSentences(c, init), s, p);
      } else {
        OneWaySeveral(c, init, AddSentences(c, init), s, front, p1);
      }
    }
  }

  lemma SameButOne(ss: seq<string>)
    requires ss != []
    ensures ss[|ss| - 1] in ss && forall x | x in ss[..|ss| - 1] :: x in ss
  {
  }

  /** The pieces of a text are the only ones that cut up its sentences. */
  lemma PlanIsTheOnlyWay(c: Chunker, text: string, ps: seq<Piece>)
    requires c.Valid()
    ensures CutsUp(c, Sentences(text), ps) <==> ps == Plan(c, text)
  {
    PlanCutsUp(c, text);
    SentencesKeepWords(text);
    if CutsUp(c, Sentences(text), ps) {
      OnlyOneWay(c, Sentences(text), ps);
    }
  }

  /** Each chunk is its piece without the spaces at the ends. */
  lemma ChunksAreExact(c: Chunker, text: string, i: nat) returns (left: string, right: string)
    requires c.Valid() && i < |Plan(c, text)|
    ensures |Chunks(c, text)| == |Plan(c, text)|
    ensures Plan(c, text)[i].carry + Plan(c, text)[i].body == left + Chunks(c, text)[i] + right
    ensures Blank(left) && Blank(right) && Stripped(Chunks(c, text)[i])
  {
    left, right := StripIs(Plan(c, text)[i].Text());
    StripFacts(Plan(c, text)[i].Text());
  }
}
