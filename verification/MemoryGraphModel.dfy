/** The memory graph as values: nodes, the inverted tag index, and ranked queries. */
module MemoryGraphModel {
  import opened Collections
  import opened Ranking

  type Id = string
  type Tag = string

  datatype Node = Node(
    tier: string,
    category: string,
    content: string,
    tags: set<Tag>,
    embedding: seq<real>,
    related: seq<Id>)

  datatype Graph = Graph(nodes: Dict<Id, Node>, index: map<Tag, seq<Id>>)

  const EMPTY: Graph := Graph(EmptyDict(), map[])

  /** How relevant a node is to a query: some fixed function of the query, content and embedding. */
  type Relevance = (string, string, seq<real>) -> real

  // -------------------------------------------------------------- operations

  function TagSet(tags: seq<Tag>): set<Tag> {
    set t | t in tags
  }

  function Listed(index: map<Tag, seq<Id>>, t: Tag): seq<Id> {
    if t in index then index[t] else []
  }

  function IndexNode(index: map<Tag, seq<Id>>, id: Id, tags: set<Tag>): map<Tag, seq<Id>> {
    map t | t in index.Keys + tags :: Listed(index, t) + if t in tags then [id] else []
  }

  function Commit(g: Graph, id: Id, n: Node): Graph {
    Graph(Put(g.nodes, id, n), IndexNode(g.index, id, n.tags))
  }

  function Related(g: Graph, a: Id, b: Id): Graph
    requires a in g.nodes.data
  {
    g.(nodes := g.nodes.(data := g.nodes.data[a := g.nodes.data[a].(related := g.nodes.data[a].related + [b])]))
  }

  function Link(g: Graph, a: Id, b: Id): Graph {
    if a in g.nodes.data && b in g.nodes.data then Related(Related(g, a, b), b, a) else g
  }

  predicate TierOk(g: Graph, tier: Option<string>, id: Id) {
    id in g.nodes.data && (tier.None? || tier.value == "" || g.nodes.data[id].tier == tier.value)
  }

  /** What a full scan would keep: any of the tags (if any are given), and the tier (if given). */
  predicate Matches(g: Graph, tier: Option<string>, tags: seq<Tag>, id: Id) {
    && TierOk(g, tier, id)
    && (tags == [] || exists t | t in tags :: t in g.nodes.data[id].tags)
  }

  /** The lists of the tags one after the other: a node appears once for every tag it matches. */
  function Collected(index: map<Tag, seq<Id>>, tags: seq<Tag>): seq<Id> {
    if tags == [] then [] else Collected(index, tags[..|tags| - 1]) + Listed(index, tags[|tags| - 1])
  }

  function Candidates(g: Graph, tier: Option<string>, tags: seq<Tag>): seq<Id> {
    Filter(if tags != [] then Collected(g.index, tags) else g.nodes.keys, id => TierOk(g, tier, id))
  }

  function ScoreOf(g: Graph, relevance: Relevance, text: string): Id -> real {
    id => if id in g.nodes.data then relevance(text, g.nodes.data[id].content, g.nodes.data[id].embedding) else 0.0
  }

  /** The loop stops at the first length that is not below the limit, after the first node. */
  function Cut(ids: seq<Id>, limit: int): seq<Id> {
    ids[..Min(Max(limit, 1), |ids|)]
  }

  function Query(g: Graph, relevance: Relevance, text: string, tier: Option<string>, tags: seq<Tag>, limit: int): seq<Id> {
    Cut(Dedup(Ranked(Candidates(g, tier, tags), ScoreOf(g, relevance, text))), limit)
  }

  // --------------------------------------------------------------- invariant

  function HasTag(nodes: map<Id, Node>, t: Tag): Id -> bool {
    id => id in nodes && t in nodes[id].tags
  }

  /** Each tag's list is the nodes that carry it, once each, in the order of commitment; no tag
      in use is missing. */
  ghost predicate IndexOk(g: Graph) {
    && g.nodes.Valid()
    && (forall t | t in g.index :: g.index[t] == Filter(g.nodes.keys, HasTag(g.nodes.data, t)))
    && (forall id | id in g.nodes.data :: forall t | t in g.nodes.data[id].tags :: t in g.index)
  }

  lemma ListedIsFilter(g: Graph, t: Tag)
    requires IndexOk(g)
    ensures Listed(g.index, t) == Filter(g.nodes.keys, HasTag(g.nodes.data, t))
  {
    if t !in g.index {
      FilterNone(g.nodes.keys, HasTag(g.nodes.data, t));
    }
  }

  lemma CommitLists(g: Graph, id: Id, n: Node, t: Tag)
    requires IndexOk(g) && id !in g.nodes.data
    ensures var h := Commit(g, id, n);
      Listed(g.index, t) + (if t in n.tags then [id] else []) == Filter(h.nodes.keys, HasTag(h.nodes.data, t))
  {
    var h := Commit(g, id, n);
    ListedIsFilter(g, t);
    FilterConcat(g.nodes.keys, [id], HasTag(h.nodes.data, t));
    FilterAgree(g.nodes.keys, HasTag(g.nodes.data, t), HasTag(h.nodes.data, t));
  }

  lemma CommitKeepsIndex(g: Graph, id: Id, n: Node)
    requires IndexOk(g) && id !in g.nodes.data
    ensures IndexOk(Commit(g, id, n))
  {
    var h := Commit(g, id, n);
    forall t | t in h.index ensures h.index[t] == Filter(h.nodes.keys, HasTag(h.nodes.data, t)) {
      CommitLists(g, id, n, t);
    }
    assert h.nodes.data == g.nodes.data[id := n];
  }

  lemma LinkKeepsIndex(g: Graph, a: Id, b: Id)
    requires IndexOk(g)
    ensures IndexOk(Link(g, a, b))
  {
    var h := Link(g, a, b);
    assert h.nodes.keys == g.nodes.keys && h.nodes.data.Keys == g.nodes.data.Keys;
    forall t | t in h.index ensures h.index[t] == Filter(h.nodes.keys, HasTag(h.nodes.data, t)) {
      FilterAgree(g.nodes.keys, HasTag(g.nodes.data, t), HasTag(h.nodes.data, t));
    }
  }

  /** Links are mutual, with multiplicity. */
  ghost predicate LinksMutual(g: Graph) {
    forall a, b | a in g.nodes.data && b in g.nodes.data :: Times(g, a, b) == Times(g, b, a)
  }

  function Times(g: Graph, a: Id, b: Id): nat
    requires a in g.nodes.data
  {
    multiset(g.nodes.data[a].related)[b]
  }

  /** Appending one link raises one multiplicity. */
  lemma RelatedTimes(g: Graph, a: Id, b: Id, x: Id, y: Id)
    requires a in g.nodes.data && x in g.nodes.data
    ensures Times(Related(g, a, b), x, y) == Times(g, x, y) + if x == a && y == b then 1 else 0
  {
  }

  lemma LinkKeepsMutual(g: Graph, a: Id, b: Id)
    requires LinksMutual(g)
    ensures LinksMutual(Link(g, a, b))
  {
    if a in g.nodes.data && b in g.nodes.data {
      var mid, h := Related(g, a, b), Link(g, a, b);
      forall x, y | x in h.nodes.data && y in h.nodes.data ensures Times(h, x, y) == Times(h, y, x) {
        RelatedTimes(g, a, b, x, y);
        RelatedTimes(mid, b, a, x, y);
        RelatedTimes(g, a, b, y, x);
        RelatedTimes(mid, b, a, y, x);
      }
    }
  }

  /** Only links between known nodes are ever made. */
  ghost predicate LinksKnown(g: Graph) {
    forall id | id in g.nodes.data :: forall b | b in g.nodes.data[id].related :: b in g.nodes.data
  }

  lemma CommitKeepsMutual(g: Graph, id: Id, n: Node)
    requires LinksMutual(g) && LinksKnown(g) && id !in g.nodes.data && n.related == []
    ensures LinksMutual(Commit(g, id, n)) && LinksKnown(Commit(g, id, n))
  {
    var h := Commit(g, id, n);
    forall a, b | a in h.nodes.data && b in h.nodes.data ensures Times(h, a, b) == Times(h, b, a) {
      if a in g.nodes.data && b in g.nodes.data {
        assert Times(g, a, b) == Times(g, b, a);
      } else {
        assert a in g.nodes.data ==> id !in g.nodes.data[a].related;
        assert b in g.nodes.data ==> id !in g.nodes.data[b].related;
      }
    }
  }

  lemma LinkKeepsKnown(g: Graph, a: Id, b: Id)
    requires LinksKnown(g)
    ensures LinksKnown(Link(g, a, b))
  {
  }

  datatype Event = CommitEvent(id: Id, node: Node) | LinkEvent(a: Id, b: Id)

  function After(es: seq<Event>): Graph {
    if es == [] then EMPTY
    else
      Apply(After(es[..|es| - 1]), es[|es| - 1])
  }

  function Apply(g: Graph, e: Event): Graph {
    match e
    case CommitEvent(id, n) => Commit(g, id, n)
    case LinkEvent(a, b) => Link(g, a, b)
  }

  /** Fresh ids, and nodes start without links. */
  predicate Legal(es: seq<Event>) {
    es == []
    || (&& Legal(es[..|es| - 1])
        && match es[|es| - 1]
           case CommitEvent(id, n) => id !in After(es[..|es| - 1]).nodes.data && n.related == []
           case LinkEvent(_, _) => true)
  }

  /** After any run of commits and links the index is exact and links are mutual. */
  lemma {:induction false} ReachableOk(es: seq<Event>)
    requires Legal(es)
    ensures IndexOk(After(es)) && LinksMutual(After(es)) && LinksKnown(After(es))
  {
    if es != [] {
      ReachableOk(es[..|es| - 1]);
      var g := After(es[..|es| - 1]);
      match es[|es| - 1]
      case CommitEvent(id, n) =>
        CommitKeepsIndex(g, id, n);
        CommitKeepsMutual(g, id, n);
      case LinkEvent(a, b) =>
        LinkKeepsIndex(g, a, b);
        LinkKeepsMutual(g, a, b);
        LinkKeepsKnown(g, a, b);
    }
  }

  // ----------------------------------------------------------- query theorem

  lemma {:induction false} CollectedMembers(g: Graph, tags: seq<Tag>)
    requires IndexOk(g)
    ensures forall id ::
      id in Collected(g.index, tags) <==> id in g.nodes.data && exists t | t in tags :: t in g.nodes.data[id].tags
  {
    if tags != [] {
      var init, t := tags[..|tags| - 1], tags[|tags| - 1];
      CollectedMembers(g, init);
      ListedIsFilter(g, t);
      FilterMembers(g.nodes.keys, HasTag(g.nodes.data, t));
      assert forall x :: x in tags <==> x in init || x == t;
      forall id ensures id in Collected(g.index, tags)
                   <==> id in g.nodes.data && exists t | t in tags :: t in g.nodes.data[id].tags
      {
        assert id in Listed(g.index, t) <==> id in g.nodes.data && t in g.nodes.data[id].tags;
      }
    }
  }

  lemma CandidatesMatch(g: Graph, tier: Option<string>, tags: seq<Tag>)
    requires IndexOk(g)
    ensures forall id :: id in Candidates(g, tier, tags) <==> Matches(g, tier, tags, id)
  {
    CollectedMembers(g, tags);
    FilterMembers(if tags != [] then Collected(g.index, tags) else g.nodes.keys, id => TierOk(g, tier, id));
  }

  /** What a full scan finds, in the order of commitment. */
  function Scan(g: Graph, tier: Option<string>, tags: seq<Tag>): seq<Id> {
    Filter(g.nodes.keys, id => Matches(g, tier, tags, id))
  }

  lemma CutFacts(ids: seq<Id>, limit: int, score: Id -> real)
    requires Distinct(ids) && Descending(ids, score)
    ensures Distinct(Cut(ids, limit)) && Descending(Cut(ids, limit), score)
    ensures forall id | id in Cut(ids, limit) :: id in ids
  {
  }

  lemma CutScores(a: seq<Id>, b: seq<Id>, limit: int, score: Id -> real)
    requires Scores(a, score) == Scores(b, score)
    ensures Scores(Cut(a, limit), score) == Scores(Cut(b, limit), score)
  {
    assert |Scores(a, score)| == |a| && |Scores(b, score)| == |b|;
    forall i | 0 <= i < |Cut(a, limit)| ensures Scores(Cut(a, limit), score)[i] == Scores(Cut(b, limit), score)[i] {
      assert Scores(a, score)[i] == Scores(b, score)[i];
    }
  }

  lemma ScanFacts(g: Graph, tier: Option<string>, tags: seq<Tag>)
    requires g.nodes.Valid()
    ensures Distinct(Scan(g, tier, tags))
    ensures forall id :: id in Scan(g, tier, tags) <==> Matches(g, tier, tags, id)
  {
    FilterMembers(g.nodes.keys, id => Matches(g, tier, tags, id));
    FilterDistinct(g.nodes.keys, id => Matches(g, tier, tags, id));
  }

  /** All results before the cut: the index way and the scan way. */
  lemma RankingsAgree(g: Graph, tier: Option<string>, tags: seq<Tag>, score: Id -> real)
    requires IndexOk(g)
    ensures var all, brute := Dedup(Ranked(Candidates(g, tier, tags), score)), Ranked(Scan(g, tier, tags), score);
      && Distinct(all) && Descending(all, score)
      && (forall id :: id in all <==> Matches(g, tier, tags, id))
      && Scores(all, score) == Scores(brute, score)
  {
    var ranked := Ranked(Candidates(g, tier, tags), score);
    CandidatesMatch(g, tier, tags);
    RankedFacts(Candidates(g, tier, tags), score);
    DedupFacts(ranked, score);
    ScanFacts(g, tier, tags);
    RankedFacts(Scan(g, tier, tags), score);
    SameSetSameScores(Dedup(ranked), Ranked(Scan(g, tier, tags), score), score);
  }

  /** A query through the index gives distinct matching nodes, as many as the limit allows (one
      at least, if there is any), and with the very scores that ranking a full scan would give. */
  lemma QueryIsBruteForce(g: Graph, relevance: Relevance, text: string, tier: Option<string>, tags: seq<Tag>, limit: int)
    requires IndexOk(g)
    ensures var score := ScoreOf(g, relevance, text);
      var found, scan := Query(g, relevance, text, tier, tags, limit), Scan(g, tier, tags);
      && Distinct(found)
      && (forall id | id in found :: Matches(g, tier, tags, id))
      && |found| == Min(Max(limit, 1), |scan|)
      && Descending(found, score)
      && Scores(found, score) == Scores(Cut(Ranked(scan, score), limit), score)
  {
    var score := ScoreOf(g, relevance, text);
    var all, brute := Dedup(Ranked(Candidates(g, tier, tags), score)), Ranked(Scan(g, tier, tags), score);
    RankingsAgree(g, tier, tags, score);
    CutFacts(all, limit, score);
    CutScores(all, brute, limit, score);
    assert |Scores(all, score)| == |Scores(brute, score)|;
  }

  lemma QueryFindsKnown(g: Graph, relevance: Relevance, text: string, tier: Option<string>, tags: seq<Tag>, limit: int)
    requires IndexOk(g)
    ensures forall id | id in Query(g, relevance, text, tier, tags, limit) :: id in g.nodes.data
  {
    QueryIsBruteForce(g, relevance, text, tier, tags, limit);
  }

  lemma CutIsTop(ids: seq<Id>, limit: int, score: Id -> real, id: Id)
    requires Descending(ids, score) && id in ids && id !in Cut(ids, limit)
    ensures |Cut(ids, limit)| == Max(limit, 1)
    ensures forall f | f in Cut(ids, limit) :: score(f) >= score(id)
  {
    var found := Cut(ids, limit);
    var j :| 0 <= j < |ids| && ids[j] == id;
    assert forall i :: 0 <= i < |found| ==> found[i] == ids[i] && found[i] in found;
    forall f | f in found ensures score(f) >= score(id) {
      var i :| 0 <= i < |found| && found[i] == f;
      assert ids[i] == f;
    }
  }

  /** The node is of the tier asked for, if any, and has one of the tags asked for, if any. */
  predicate Asked(n: Node, tier: Option<string>, tags: seq<Tag>) {
    && (tier.Some? && tier.value != "" ==> n.tier == tier.value)
    && (tags != [] ==> exists t | t in tags :: t in n.tags)
  }

  lemma MatchesIs(g: Graph, tier: Option<string>, tags: seq<Tag>, id: Id)
    ensures Matches(g, tier, tags, id) <==> id in g.nodes.data && Asked(g.nodes.data[id], tier, tags)
  {
  }

  /** A query keeps to the tier and the tags it is given. */
  lemma QueryKeepsTo(g: Graph, relevance: Relevance, text: string, tier: Option<string>, tags: seq<Tag>, limit: int, id: Id)
    requires IndexOk(g) && id in Query(g, relevance, text, tier, tags, limit)
    ensures id in g.nodes.data && Asked(g.nodes.data[id], tier, tags)
  {
    QueryIsBruteForce(g, relevance, text, tier, tags, limit);
    MatchesIs(g, tier, tags, id);
  }

  /** It leaves out a node that was asked for only once it has as many as the limit, all of them at
      least as relevant. */
  lemma QueryIsTop(g: Graph, relevance: Relevance, text: string, tier: Option<string>, tags: seq<Tag>, limit: int, id: Id, f: Id)
    requires IndexOk(g) && id in g.nodes.data && Asked(g.nodes.data[id], tier, tags)
    requires id !in Query(g, relevance, text, tier, tags, limit)
    ensures |Query(g, relevance, text, tier, tags, limit)| == Max(limit, 1)
    ensures f in Query(g, relevance, text, tier, tags, limit) ==>
      && f in g.nodes.data
      && var m, n := g.nodes.data[f], g.nodes.data[id];
         relevance(text, m.content, m.embedding) >= relevance(text, n.content, n.embedding)
  {
    var score := ScoreOf(g, relevance, text);
    var all := Dedup(Ranked(Candidates(g, tier, tags), score));
    RankingsAgree(g, tier, tags, score);
    MatchesIs(g, tier, tags, id);
    CutIsTop(all, limit, score, id);
    if f in Cut(all, limit) {
      QueryKeepsTo(g, relevance, text, tier, tags, limit, f);
      assert score(f) >= score(id);
    }
  }

  // -------------------------------------------------------- where it all comes from

  /** `id` was committed in the course of the run. */
  predicate Known(es: seq<Event>, id: Id) {
    es != [] && (Known(es[..|es| - 1], id) || (es[|es| - 1].CommitEvent? && es[|es| - 1].id == id))
  }

  /** How often the step links `a` to `b`, in either direction. */
  function Ends(e: Event, a: Id, b: Id): nat {
    match e
    case LinkEvent(x, y) => (if x == a && y == b then 1 else 0) + (if x == b && y == a then 1 else 0)
    case CommitEvent(_, _) => 0
  }

  /** How often `a` and `b` were linked when both ends of the link were known. */
  function LinksMade(es: seq<Event>, a: Id, b: Id): nat {
    if es == [] then 0
    else
      var before, e := es[..|es| - 1], es[|es| - 1];
      LinksMade(before, a, b)
      + if e.LinkEvent? && Known(before, e.a) && Known(before, e.b) then Ends(e, a, b) else 0
  }

  lemma {:induction false} NodesAreKnown(es: seq<Event>, id: Id)
    ensures id in After(es).nodes.data <==> Known(es, id)
  {
    if es != [] {
      NodesAreKnown(es[..|es| - 1], id);
    }
  }

  /** What a node was committed as. */
  predicate SameContent(m: Node, n: Node) {
    m.tier == n.tier && m.category == n.category && m.content == n.content && m.tags == n.tags && m.embedding == n.embedding
  }

  /** Every node is as it was committed, but for its links. */
  lemma {:induction false} CommittedAs(es: seq<Event>, id: Id) returns (i: nat)
    requires Legal(es) && id in After(es).nodes.data
    ensures i < |es| && es[i].CommitEvent? && es[i].id == id
    ensures SameContent(es[i].node, After(es).nodes.data[id])
  {
    var before, e := es[..|es| - 1], es[|es| - 1];
    if e.CommitEvent? && e.id == id {
      i := |es| - 1;
    } else {
      i := CommittedAs(before, id);
      ContentKept(After(before), e, id);
    }
  }

  lemma ContentKept(g: Graph, e: Event, id: Id)
    requires id in g.nodes.data && !(e.CommitEvent? && e.id == id)
    ensures id in Apply(g, e).nodes.data && SameContent(g.nodes.data[id], Apply(g, e).nodes.data[id])
  {
  }

  lemma LinkTimes(g: Graph, e: Event, x: Id, y: Id)
    requires e.LinkEvent? && x in g.nodes.data
    ensures x in Link(g, e.a, e.b).nodes.data
    ensures Times(Link(g, e.a, e.b), x, y)
         == Times(g, x, y) + if e.a in g.nodes.data && e.b in g.nodes.data then Ends(e, x, y) else 0
  {
    if e.a in g.nodes.data && e.b in g.nodes.data {
      RelatedTimes(g, e.a, e.b, x, y);
      RelatedTimes(Related(g, e.a, e.b), e.b, e.a, x, y);
    }
  }

  /** Each node lists another exactly as often as the two were linked. */
  lemma {:induction false} LinksAreCounted(es: seq<Event>, x: Id, y: Id)
    requires Legal(es) && x in After(es).nodes.data
    ensures Times(After(es), x, y) == LinksMade(es, x, y)
  {
    var before, e := es[..|es| - 1], es[|es| - 1];
    if x in After(before).nodes.data {
      LinksAreCounted(before, x, y);
      if e.LinkEvent? {
        NodesAreKnown(before, e.a);
        NodesAreKnown(before, e.b);
        LinkTimes(After(before), e, x, y);
      }
    } else {
      NodesAreKnown(before, x);
      NoLinksYet(before, x, y);
      assert e.CommitEvent? && After(es).nodes.data[x].related == [];
    }
  }

  /** An unknown node has no links. */
  lemma {:induction false} NoLinksYet(es: seq<Event>, x: Id, y: Id)
    requires !Known(es, x)
    ensures LinksMade(es, x, y) == 0
  {
    if es != [] {
      NoLinksYet(es[..|es| - 1], x, y);
    }
  }
}
