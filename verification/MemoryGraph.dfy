/** The memory graph as the program keeps it: node objects in a dictionary, and the tag index. */
module MemoryGraph {
  import opened Collections
  import opened Ranking
  import M = MemoryGraphModel

  class MemoryNode {
    const id: M.Id
    const tier: string
    const category: string
    const content: string
    const tags: set<M.Tag>
    const embedding: seq<real>
    var related: seq<M.Id>

    constructor (id: M.Id, tier: string, category: string, content: string, tags: set<M.Tag>, embedding: seq<real>)
      ensures this.id == id && View() == M.Node(tier, category, content, tags, embedding, [])
    {
      this.id, this.tier, this.category, this.content := id, tier, category, content;
      this.tags, this.embedding, related := tags, embedding, [];
    }

    function View(): M.Node
      reads this
    {
      M.Node(tier, category, content, tags, embedding, related)
    }
  }

  class SovereignMemory {
    const relevance: M.Relevance
    var nodes: Dict<M.Id, MemoryNode>
    var indexByTag: map<M.Tag, seq<M.Id>>

    ghost predicate Valid()
      reads this, nodes.data.Values
    {
      && nodes.Valid()
      && (forall id | id in nodes.data :: nodes.data[id].id == id)
      && M.IndexOk(View())
    }

    function Views(): map<M.Id, M.Node>
      reads this`nodes, nodes.data.Values
    {
      map id | id in nodes.data :: nodes.data[id].View()
    }

    function View(): M.Graph
      reads this, nodes.data.Values
    {
      M.Graph(Dict(nodes.keys, Views()), indexByTag)
    }

    constructor (relevance: M.Relevance)
      ensures Valid() && View() == M.EMPTY && this.relevance == relevance
    {
      this.relevance := relevance;
      nodes, indexByTag := EmptyDict(), map[];
    }

    twostate lemma ViewsAfterChange(new n: MemoryNode)
      requires forall id | id in old(nodes.data) :: old(nodes.data)[id].id == id
      requires nodes.data == old(nodes.data)[n.id := n]
      requires forall id | id in old(nodes.data) && id != n.id :: unchanged(old(nodes.data)[id])
      ensures Views() == old(Views())[n.id := n.View()]
    {
    }

    /** `id` is the fresh identifier drawn for the node, `embedding` the one given or computed. */
    method Commit(id: M.Id, tier: string, category: string, content: string, tags: seq<M.Tag>, embedding: seq<real>)
      requires Valid() && id !in nodes.data
      modifies this
      ensures Valid()
      ensures View() == M.Commit(old(View()), id,
                                 M.Node(tier, category, content, M.TagSet(tags), embedding, []))
    {
      ghost var g := View();
      var node := new MemoryNode(id, tier, category, content, M.TagSet(tags), embedding);
      M.CommitKeepsIndex(g, id, node.View());
      Insert(node);
    }

    method Insert(node: MemoryNode)
      requires forall id | id in nodes.data :: nodes.data[id].id == id
      modifies this
      ensures nodes == Put(old(nodes), node.id, node)
      ensures View() == M.Commit(old(View()), node.id, node.View())
    {
      nodes := Put(nodes, node.id, node);
      ViewsAfterChange(node);
      AddToIndex(node.id, node.tags);
    }

    /** The loop over the node's tags, in whatever order the set gives them. */
    method AddToIndex(id: M.Id, tags: set<M.Tag>)
      modifies this`indexByTag
      ensures View() == old(View()).(index := M.IndexNode(old(indexByTag), id, tags))
    {
      ghost var before := indexByTag;
      var todo := tags;
      ghost var done := {};
      IndexNone(before, id);
      while todo != {}
        invariant done !! todo && done + todo == tags
        invariant indexByTag == M.IndexNode(before, id, done)
        decreases |todo|
      {
        var tag :| tag in todo;
        IndexOneMore(before, id, done, tag);
        AppendToTag(tag, id);
        todo := todo - {tag};
        done := done + {tag};
      }
      assert done == tags;
    }

    method AppendToTag(tag: M.Tag, id: M.Id)
      modifies this`indexByTag
      ensures indexByTag == old(indexByTag)[tag := M.Listed(old(indexByTag), tag) + [id]]
    {
      if tag !in indexByTag {
        indexByTag := indexByTag[tag := []];
      }
      indexByTag := indexByTag[tag := indexByTag[tag] + [id]];
    }

    /** Candidate collection, tag by tag. */
    method CollectCandidates(tags: seq<M.Tag>) returns (ids: seq<M.Id>)
      requires Valid()
      ensures ids == if tags != [] then M.Collected(indexByTag, tags) else nodes.keys
    {
      if tags == [] {
        return nodes.keys;
      }
      ids := [];
      for i := 0 to |tags|
        invariant ids == M.Collected(indexByTag, tags[..i])
      {
        assert tags[..i + 1][..i] == tags[..i];
        if tags[i] in indexByTag {
          ids := ids + indexByTag[tags[i]];
        }
      }
      assert tags[..|tags|] == tags;
    }

    method Query(text: string, tier: Option<string>, tags: seq<M.Tag>, limit: int) returns (found: seq<MemoryNode>)
      requires Valid()
      ensures var ids := M.Query(View(), relevance, text, tier, tags, limit);
        && |found| == |ids|
        && forall i :: 0 <= i < |found| ==> ids[i] in nodes.data && found[i] == nodes.data[ids[i]]
    {
      var g := View();
      var collected := CollectCandidates(tags);
      var candidates := Filter(collected, id => M.TierOk(g, tier, id));
      var scored := Ranked(candidates, M.ScoreOf(g, relevance, text));
      var unique := TakeUnique(scored, limit);
      assert unique == M.Query(g, relevance, text, tier, tags, limit);
      M.QueryFindsKnown(g, relevance, text, tier, tags, limit);
      found := NodesOf(unique);
    }

    method NodesOf(ids: seq<M.Id>) returns (found: seq<MemoryNode>)
      requires forall id | id in ids :: id in nodes.data
      ensures |found| == |ids|
      ensures forall i :: 0 <= i < |ids| ==> ids[i] in nodes.data && found[i] == nodes.data[ids[i]]
    {
      found := [];
      for i := 0 to |ids|
        invariant |found| == i
        invariant forall j :: 0 <= j < i ==> ids[j] in nodes.data && found[j] == nodes.data[ids[j]]
      {
        assert ids[i] in ids;
        found := found + [nodes.data[ids[i]]];
      }
    }

    method LinkNodes(a: M.Id, b: M.Id)
      requires Valid()
      modifies nodes.data.Values
      ensures Valid()
      ensures View() == M.Link(old(View()), a, b)
    {
      if a in nodes.data && b in nodes.data {
        ghost var g := View();
        AppendRelated(nodes.data[a], b);
        AppendRelated(nodes.data[b], a);
        M.LinkKeepsIndex(g, a, b);
      }
    }

    method AppendRelated(n: MemoryNode, other: M.Id)
      requires forall id | id in nodes.data :: nodes.data[id].id == id
      requires n.id in nodes.data && nodes.data[n.id] == n
      modifies n
      ensures View() == M.Related(old(View()), n.id, other)
    {
      n.related := n.related + [other];
      ViewsAfterChange(n);
    }
  }

  lemma IndexNone(index: map<M.Tag, seq<M.Id>>, id: M.Id)
    ensures M.IndexNode(index, id, {}) == index
  {
    forall t | t in index ensures M.IndexNode(index, id, {})[t] == index[t] {
      assert index[t] + [] == index[t];
    }
  }

  lemma IndexOneMore(index: map<M.Tag, seq<M.Id>>, id: M.Id, done: set<M.Tag>, tag: M.Tag)
    requires tag !in done
    ensures M.IndexNode(index, id, done + {tag})
         == M.IndexNode(index, id, done)[tag := M.Listed(index, tag) + [id]]
    ensures M.Listed(M.IndexNode(index, id, done), tag) == M.Listed(index, tag)
  {
  }

  /** The loop that skips nodes already seen and stops once there are enough. */
  method TakeUnique(ranked: seq<M.Id>, limit: int) returns (unique: seq<M.Id>)
    ensures unique == M.Cut(Dedup(ranked), limit)
  {
    unique := [];
    var i := 0;
    while i < |ranked|
      invariant 0 <= i <= |ranked|
      invariant unique == Dedup(ranked[..i])
      invariant |unique| < Max(limit, 1)
    {
      assert ranked[..i + 1][..i] == ranked[..i];
      if ranked[i] !in unique {
        unique := unique + [ranked[i]];
      }
      i := i + 1;
      if |unique| >= limit {
        break;
      }
    }
    assert ranked[..|ranked|] == ranked;
    DedupPrefix(ranked, i);
  }

  /** Going on never changes what has been taken. */
  lemma {:induction false} DedupPrefix(xs: seq<M.Id>, i: nat)
    requires i <= |xs|
    ensures Dedup(xs[..i]) <= Dedup(xs)
  {
    if i < |xs| {
      DedupPrefix(xs[..|xs| - 1], i);
      assert xs[..|xs| - 1][..i] == xs[..i];
    } else {
      assert xs[..i] == xs;
    }
  }
}
