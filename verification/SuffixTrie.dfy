/**
  The reversed-label suffix trie of the compiled index: nodes on the heap, reached through a map from
  label to child. `nodes` records, for proof only, which node each label path reaches.
  */
module SuffixTrie {
  import opened Text
  import opened Hosts

  type Path = seq<string>

  class SuffixNode {
    var children: map<string, SuffixNode>
    var rank: int

    constructor ()
      ensures children == map[] && rank == -1
    {
      children, rank := map[], -1;
    }
  }

  /** The heap invariant: `nodes` is exactly the set of paths of the trie, each with a node of its own. */
  ghost predicate Spans(root: SuffixNode, nodes: map<Path, SuffixNode>)
    reads nodes.Values`children
  {
    && [] in nodes && nodes[[]] == root
    && (forall p, q :: p in nodes && q in nodes && nodes[p] == nodes[q] ==> p == q)
    && (forall p {:trigger ChildrenSpanned(nodes, p)} :: p in nodes ==> ChildrenSpanned(nodes, p))
    && (forall p {:trigger Hangs(nodes, p)} :: p in nodes ==> Hangs(nodes, p))
  }

  ghost predicate Hangs(nodes: map<Path, SuffixNode>, p: Path)
    reads nodes.Values`children
  {
    p != [] ==> Parent(p) in nodes && p[|p| - 1] in nodes[Parent(p)].children
  }

  ghost predicate ChildrenSpanned(nodes: map<Path, SuffixNode>, p: Path)
    requires p in nodes
    reads nodes.Values`children
  {
    forall l :: l in nodes[p].children ==> p + [l] in nodes && nodes[p + [l]] == nodes[p].children[l]
  }

  function Parent(p: Path): Path
    requires p != []
  {
    p[..|p| - 1]
  }

  /** What the trie stores: the rank at each path. */
  ghost function Ranks(nodes: map<Path, SuffixNode>): map<Path, int>
    reads nodes.Values
  {
    map p | p in nodes :: nodes[p].rank
  }

  function Least(current: int, rank: int): int {
    if current < 0 || rank < current then rank else current
  }

  ghost function RankAt(ranks: map<Path, int>, p: Path): int {
    if p in ranks then ranks[p] else -1
  }

  /** The best rank on the way down `path`, or -1. */
  ghost function BestRank(ranks: map<Path, int>, path: Path): int {
    if path == [] then -1
    else
      var above, here := BestRank(ranks, Parent(path)), RankAt(ranks, path);
      if here >= 0 then Least(above, here) else above
  }

  /** strings.LastIndexByte(host[:end], '.') + 1. */
  function LabelStart(host: string, end: nat): nat
    requires end <= |host|
  {
    LastDot(host[..end]) + 1
  }

  /** The path that spells a host; the empty host spells none. */
  function HostPath(host: string): Path {
    if host == "" then [] else Labels(host)
  }

  /** The loops of `insert` and `match` cut a host into its labels, last first. */
  ghost predicate CutTo(host: string, end: nat, done: Path) {
    end <= |host| && done + HostPath(host[..end]) == HostPath(host)
  }

  /** Where the loop goes on after the label that starts at `start`. */
  function NextEnd(start: nat): nat {
    if start == 0 then 0 else start - 1
  }

  lemma CutStart(host: string)
    ensures CutTo(host, |host|, [])
  {
    assert host[..|host|] == host;
  }

  lemma {:induction false} CutStep(host: string, end: nat, done: Path)
    requires 0 < end && host != "" && host[0] != '.' && CutTo(host, end, done)
    ensures var start := LabelStart(host, end);
            start <= end && CutTo(host, NextEnd(start), done + [host[start..end]])
  {
    var part := host[..end];
    var dot := LastDot(part);
    assert part[dot + 1..] == host[dot + 1..end];
    if dot < 0 {
      assert HostPath(part) == [host[0..end]];
    } else {
      assert part[dot] == host[dot] == '.';
      assert part[..dot] == host[..dot];
      assert done + HostPath(part) == done + [host[dot + 1..end]] + HostPath(host[..dot]);
    }
  }

  lemma CutIsPrefix(host: string, end: nat, done: Path)
    requires CutTo(host, end, done)
    ensures done <= HostPath(host)
  {
  }

  /** A child pointer and the path below it come and go together. */
  lemma Descend(root: SuffixNode, nodes: map<Path, SuffixNode>, path: Path, name: string)
    requires Spans(root, nodes) && path in nodes
    ensures name in nodes[path].children <==> path + [name] in nodes
    ensures name in nodes[path].children ==> nodes[path + [name]] == nodes[path].children[name]
  {
    var next := path + [name];
    assert Parent(next) == path && next[|next| - 1] == name;
    assert ChildrenSpanned(nodes, path) && (next in nodes ==> Hangs(nodes, next));
  }

  /** `nodes` has grown into `grown` with nodes that were not there, and no rank has changed. */
  twostate predicate Grown(nodes: map<Path, SuffixNode>, new grown: map<Path, SuffixNode>)
    reads grown.Values
  {
    && nodes.Keys <= grown.Keys
    && (forall p :: p in nodes ==> grown[p] == nodes[p] && grown[p].rank == old(nodes[p].rank))
    && (forall p :: p in grown && p !in nodes ==> fresh(grown[p]) && grown[p].rank == -1)
  }

  /** suffixNode.insert. */
  method Insert(root: SuffixNode, host: string, rank: int, ghost nodes: map<Path, SuffixNode>)
    returns (ghost grown: map<Path, SuffixNode>)
    requires Spans(root, nodes)
    requires host != "" && host[0] != '.'
    modifies nodes.Values
    ensures Spans(root, grown)
    ensures nodes.Keys <= grown.Keys && HostPath(host) in grown
    ensures fresh(grown.Values - nodes.Values)
    ensures forall p :: p in grown ==>
              grown[p].rank == if p == HostPath(host) then Least(RankAt(old(Ranks(nodes)), p), rank)
                  else RankAt(old(Ranks(nodes)), p)
  {
    grown := nodes;
    var current := root;
    var end: nat := |host|;
    ghost var path: Path := [];
    CutStart(host);
    while end > 0
      invariant CutTo(host, end, path)
      invariant Spans(root, grown) && Grown(nodes, grown)
      invariant path in grown && grown[path] == current
    {
      var start := LabelStart(host, end);
      CutStep(host, end, path);
      current, grown := Child(root, current, host[start..end], grown, path);
      path := path + [host[start..end]];
      end := NextEnd(start);
    }
    assert host[..end] == "" && path + [] == path;
    current.rank := Least(current.rank, rank);
  }

  /** The child of `current` under `name`, made first when it is missing. */
  method Child(root: SuffixNode, current: SuffixNode, name: string, ghost nodes: map<Path, SuffixNode>,
      ghost path: Path)
    returns (next: SuffixNode, ghost grown: map<Path, SuffixNode>)
    requires Spans(root, nodes) && path in nodes && nodes[path] == current
    modifies current`children
    ensures Spans(root, grown) && Grown(nodes, grown)
    ensures path + [name] in grown && grown[path + [name]] == next
  {
    Descend(root, nodes, path, name);
    grown := nodes;
    if name !in current.children {
      var node := new SuffixNode();
      grown := AddChild(root, current, name, node, nodes, path);
    }
    next := current.children[name];
  }

  method AddChild(root: SuffixNode, current: SuffixNode, name: string, node: SuffixNode,
                  ghost nodes: map<Path, SuffixNode>, ghost path: Path)
    returns (ghost grown: map<Path, SuffixNode>)
    requires Spans(root, nodes)
    requires path in nodes && nodes[path] == current && name !in current.children
    requires node !in nodes.Values && node.children == map[]
    modifies current`children
    ensures grown == nodes[path + [name] := node]
    ensures path + [name] !in nodes
    ensures current.children == old(current.children)[name := node]
    ensures Spans(root, grown)
  {
    ghost var added := path + [name];
    Descend(root, nodes, path, name);
    grown := nodes[added := node];
    current.children := current.children[name := node];
    forall p | p in grown ensures ChildrenSpanned(grown, p) {
      if p != path && p != added {
        assert old(ChildrenSpanned(nodes, p)) && nodes[p] != current;
      } else if p == path {
        assert old(ChildrenSpanned(nodes, path));
      }
    }
    forall p | p in grown ensures Hangs(grown, p) {
      if p != added {
        assert old(Hangs(nodes, p));
      }
    }
  }

  /** suffixNode.match. */
  method Match(root: SuffixNode, host: string, ghost nodes: map<Path, SuffixNode>) returns (best: int)
    requires Spans(root, nodes)
    requires host == "" || host[0] != '.'
    ensures best == BestRank(Ranks(nodes), HostPath(host))
  {
    var current := root;
    best := -1;
    var end: nat := |host|;
    ghost var path: Path, ranks := [], Ranks(nodes);
    CutStart(host);
    while end > 0
      invariant CutTo(host, end, path)
      invariant best == BestRank(ranks, path)
      invariant path in nodes && nodes[path] == current
    {
      var start := LabelStart(host, end);
      CutStep(host, end, path);
      var name := host[start..end];
      Descend(root, nodes, path, name);
      if name !in current.children {
        CutIsPrefix(host, NextEnd(start), path + [name]);
        NothingBelow(root, nodes, path, name, HostPath(host));
        return;
      }
      current := current.children[name];
      path := path + [name];
      if current.rank >= 0 && (best < 0 || current.rank < best) {
        best := current.rank;
      }
      end := NextEnd(start);
    }
    assert host[..end] == "" && path + [] == path;
  }

  /** Below a missing path there is nothing, so leaving the loop early loses no rank. */
  lemma {:induction false} NothingBelow(root: SuffixNode, nodes: map<Path, SuffixNode>, path: Path, name: string,
      deep: Path)
    requires Spans(root, nodes)
    requires path + [name] !in nodes && path + [name] <= deep
    ensures deep !in nodes && BestRank(Ranks(nodes), deep) == BestRank(Ranks(nodes), path)
    decreases |deep|
  {
    if deep == path + [name] {
      assert Parent(deep) == path;
    } else {
      NothingBelow(root, nodes, path, name, Parent(deep));
      assert deep in nodes ==> Hangs(nodes, deep);
    }
  }

  /** BestRank is the least rank stored on the way down. */
  lemma {:induction false} BestRankIsLeast(ranks: map<Path, int>, path: Path)
    ensures BestRank(ranks, path) >= -1
    ensures BestRank(ranks, path) >= 0 ==> exists p :: p != [] && p <= path && RankAt(ranks, p) == BestRank(ranks, path)
    ensures forall p :: p != [] && p <= path && RankAt(ranks, p) >= 0 ==> 0 <= BestRank(ranks, path) <= RankAt(ranks, p)
  {
    if path == [] {
    } else {
      BestRankIsLeast(ranks, Parent(path));
      forall p: Path | p != [] && p <= path && RankAt(ranks, p) >= 0
        ensures 0 <= BestRank(ranks, path) <= RankAt(ranks, p)
      {
        assert p == path || p <= Parent(path);
      }
    }
  }
}
