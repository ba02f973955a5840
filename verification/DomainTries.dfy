/** The mutable trie of internal/filtering/trie.go, on the heap. A ghost map from paths to nodes
    ties the nodes to the shapes of module Trie. */
module DomainTries {
  import opened Names
  import opened Trie

  class TrieNode {
    var children: map<Text, TrieNode>
    var isEnd: bool
    var isWild: bool
    /** The labels that lead to this node. */
    ghost const path: Path

    constructor (ghost path: Path)
      ensures children == map[] && !isEnd && !isWild && this.path == path
    {
      children, isEnd, isWild := map[], false, false;
      this.path := path;
    }
  }

  function Sub(p: Path, l: Text): Path { p + [l] }

  function Last(p: Path): Text
    requires p != []
  {
    p[|p| - 1]
  }

  lemma SubParts(p: Path, l: Text)
    ensures Sub(p, l) != [] && Up(Sub(p, l)) == p && Last(Sub(p, l)) == l && Sub(p, l) != p
  {
  }

  lemma PartsSub(p: Path)
    requires p != []
    ensures Sub(Up(p), Last(p)) == p
  {
  }

  /** What one node holds. */
  datatype View = View(kids: map<Text, TrieNode>, flags: Flags)

  type Directory = map<Path, TrieNode>
  type Views = map<Path, View>

  function ShapeFrom(views: Views): (s: Shape)
    ensures s.Keys == views.Keys
  {
    map p | p in views :: views[p].flags
  }

  /** `nodes` lists every node under the labels that lead to it from the root, and no other. */
  ghost predicate Links(nodes: Directory, views: Views, root: TrieNode) {
    && [] in nodes && nodes[[]] == root && views.Keys == nodes.Keys
    && (forall p :: p in nodes ==> nodes[p].path == p)
    && (forall p, l {:trigger l in views[p].kids} :: p in views && l in views[p].kids ==>
          Sub(p, l) in nodes && nodes[Sub(p, l)] == views[p].kids[l])
    && (forall p {:trigger Up(p)} :: p in nodes && p != [] ==> Up(p) in nodes && Last(p) in views[Up(p)].kids)
  }

  lemma ChildLink(nodes: Directory, views: Views, root: TrieNode, p: Path, l: Text)
    requires Links(nodes, views, root) && p in nodes
    ensures l in views[p].kids <==> Sub(p, l) in nodes
    ensures l in views[p].kids ==> views[p].kids[l] == nodes[Sub(p, l)]
  {
    hide Sub, Up, Last;
    SubParts(p, l);
  }

  function WithKid(views: Views, p: Path, c: Path, l: Text, child: TrieNode): Views
    requires p in views
  {
    views[p := views[p].(kids := views[p].kids[l := child])][c := View(map[], Flags(false, false))]
  }

  function WithFlags(views: Views, p: Path, f: Flags): Views
    requires p in views
  {
    views[p := views[p].(flags := f)]
  }

  function WithoutKid(views: Views, p: Path, c: Path, l: Text): Views
    requires p in views
  {
    views[p := views[p].(kids := views[p].kids - {l})] - {c}
  }

  lemma LinkNew(nodes: Directory, views: Views, root: TrieNode, p: Path, l: Text, child: TrieNode)
    requires Links(nodes, views, root) && p in nodes && l !in views[p].kids
    requires child.path == Sub(p, l)
    ensures Links(nodes[Sub(p, l) := child], WithKid(views, p, Sub(p, l), l, child), root)
  {
    hide Sub, Up, Last;
    SubParts(p, l);
    ChildLink(nodes, views, root, p, l);
    var n, v := nodes[Sub(p, l) := child], WithKid(views, p, Sub(p, l), l, child);
    forall q, m | q in v && m in v[q].kids ensures Sub(q, m) in n && n[Sub(q, m)] == v[q].kids[m] {
      SubParts(q, m);
    }
  }

  lemma LinkCut(nodes: Directory, views: Views, root: TrieNode, p: Path, l: Text)
    requires Links(nodes, views, root) && p in nodes && Sub(p, l) in nodes && views[Sub(p, l)].kids == map[]
    ensures Links(nodes - {Sub(p, l)}, WithoutKid(views, p, Sub(p, l), l), root)
  {
    hide Sub, Up, Last;
    SubParts(p, l);
    var n, v := nodes - {Sub(p, l)}, WithoutKid(views, p, Sub(p, l), l);
    forall q, m | q in v && m in v[q].kids ensures Sub(q, m) in n && n[Sub(q, m)] == v[q].kids[m] {
      SubParts(q, m);
    }
    forall q | q in n && q != [] ensures Up(q) in n && Last(q) in v[Up(q)].kids {
      PartsSub(q);
    }
  }

  lemma KidShapes(views: Views, p: Path, l: Text, child: TrieNode)
    requires p in views
    ensures ShapeFrom(WithKid(views, p, Sub(p, l), l, child)) == ShapeFrom(views)[Sub(p, l) := Flags(false, false)]
    ensures ShapeFrom(WithoutKid(views, p, Sub(p, l), l)) == ShapeFrom(views) - {Sub(p, l)}
  {
    hide Sub;
    SubParts(p, l);
  }

  lemma LinkFlags(nodes: Directory, views: Views, root: TrieNode, p: Path, f: Flags)
    requires Links(nodes, views, root) && p in nodes
    ensures Links(nodes, WithFlags(views, p, f), root)
    ensures ShapeFrom(WithFlags(views, p, f)) == ShapeFrom(views)[p := f]
  {
    hide Sub, Up, Last;
  }

  ghost predicate Shows(v: View, n: TrieNode)
    reads n
  {
    v.kids == n.children && v.flags.isEnd == n.isEnd && v.flags.isWild == n.isWild
  }

  /** The locks make every public method one atomic step. */
  class DomainTrie {
    var root: TrieNode
    var size: int
    ghost var nodes: Directory
    ghost var views: Views

    /** `views` shows what the nodes hold. */
    ghost predicate Synced()
      reads `nodes, `views, nodes.Values
    {
      && views.Keys == nodes.Keys
      && forall p :: p in nodes ==> Shows(views[p], nodes[p])
    }

    ghost predicate Linked()
      reads `root, `nodes, `views, nodes.Values
    {
      Synced() && Links(nodes, views, root)
    }

    ghost function ShapeOf(): (s: Shape)
      reads `views
    {
      ShapeFrom(views)
    }

    /** The stored domains with their wildcard flags. */
    ghost function Stored(): Contents
      reads `views
    {
      ContentsOf(ShapeOf())
    }

    ghost predicate Valid()
      reads this, nodes.Values
    {
      Linked() && Canonical(ShapeOf()) && size == |Stored()|
    }

    constructor ()
      ensures Valid() && Stored() == map[]
      ensures fresh(nodes.Values)
    {
      hide Links, Canonical, ShapeFrom, ContentsOf;
      var r := new TrieNode([]);
      OnlyRoot(r);
      root, size := r, 0;
      nodes := map[[] := r];
      views := map[[] := View(map[], Flags(false, false))];
    }

    // -------------------------------------------------------------- single edits

    /** No other path leads to the node at `p`. */
    ghost predicate Alone(p: Path)
      reads this
      requires p in nodes
    {
      forall q :: q in nodes && nodes[q] == nodes[p] ==> q == p
    }

    lemma LinkedAlone(p: Path)
      requires Links(nodes, views, root) && p in nodes
      ensures Alone(p)
    {
    }

    method PutKid(ghost p: Path, ghost c: Path, node: TrieNode, lab: Text) returns (child: TrieNode)
      requires Synced() && p in nodes && nodes[p] == node && Alone(p) && c !in nodes
      modifies this`nodes, this`views, node`children
      ensures Synced() && fresh(child) && child.path == c
      ensures nodes == old(nodes)[c := child] && views == WithKid(old(views), p, c, lab, child)
    {
      child := new TrieNode(c);
      node.children := node.children[lab := child];
      nodes := nodes[c := child];
      views := WithKid(views, p, c, lab, child);
    }

    method PutFlags(ghost p: Path, node: TrieNode, isEnd: bool, isWild: bool)
      requires Synced() && p in nodes && nodes[p] == node && Alone(p)
      modifies this`views, node`isEnd, node`isWild
      ensures Synced()
      ensures views == WithFlags(old(views), p, Flags(isEnd, isWild))
    {
      node.isEnd, node.isWild := isEnd, isWild;
      views := WithFlags(views, p, Flags(isEnd, isWild));
    }

    method CutKid(ghost p: Path, ghost c: Path, node: TrieNode, lab: Text)
      requires Synced() && p in nodes && nodes[p] == node && Alone(p) && c in nodes && c != p
      modifies this`nodes, this`views, node`children
      ensures Synced()
      ensures nodes == old(nodes) - {c} && views == WithoutKid(old(views), p, c, lab)
    {
      node.children := node.children - {lab};
      nodes := nodes - {c};
      views := WithoutKid(views, p, c, lab);
    }

    /** The child under `lab`, created if it is missing. */
    method ChildOrNew(ghost p: Path, node: TrieNode, lab: Text) returns (child: TrieNode)
      requires Linked() && p in nodes && nodes[p] == node
      modifies this`nodes, this`views, node`children
      ensures Linked()
      ensures Sub(p, lab) in nodes && nodes[Sub(p, lab)] == child
      ensures if Sub(p, lab) in old(nodes) then nodes == old(nodes) && views == old(views)
              else fresh(child) && nodes == old(nodes)[Sub(p, lab) := child]
                   && ShapeOf() == old(ShapeOf())[Sub(p, lab) := Flags(false, false)]
    {
      hide Links, Sub, ShapeFrom, WithKid;
      ghost var dir, before := nodes, views;
      ChildLink(dir, before, root, p, lab);
      if lab in node.children {
        child := node.children[lab];
        return;
      }
      LinkedAlone(p);
      child := PutKid(p, Sub(p, lab), node, lab);
      LinkNew(dir, before, root, p, lab, child);
      KidShapes(before, p, lab, child);
    }

    method SetFlags(ghost p: Path, node: TrieNode, isEnd: bool, isWild: bool)
      requires Linked() && p in nodes && nodes[p] == node
      modifies this`views, node`isEnd, node`isWild
      ensures Linked()
      ensures ShapeOf() == old(ShapeOf())[p := Flags(isEnd, isWild)]
    {
      hide Links, ShapeFrom, WithFlags;
      LinkedAlone(p);
      LinkFlags(nodes, views, root, p, Flags(isEnd, isWild));
      PutFlags(p, node, isEnd, isWild);
    }

    /** A childless node is cut off from its parent. */
    method Detach(ghost p: Path, parent: TrieNode, lab: Text)
      requires Linked() && p in nodes && nodes[p] == parent && Sub(p, lab) in nodes
      requires nodes[Sub(p, lab)].children == map[]
      modifies this`nodes, this`views, parent`children
      ensures Linked()
      ensures nodes == old(nodes) - {Sub(p, lab)}
      ensures ShapeOf() == old(ShapeOf()) - {Sub(p, lab)}
    {
      hide Links, Sub, ShapeFrom, WithoutKid;
      LinkedAlone(p);
      SubParts(p, lab);
      assert Shows(views[Sub(p, lab)], nodes[Sub(p, lab)]);
      LinkCut(nodes, views, root, p, lab);
      KidShapes(views, p, lab, parent);
      CutKid(p, Sub(p, lab), parent, lab);
    }

    // -------------------------------------------------------------- the operations

    lemma Keys()
      requires Linked()
      ensures [] in nodes && nodes[[]] == root
      ensures ShapeOf().Keys == nodes.Keys
    {
    }

    lemma NodeFlags(p: Path)
      requires Linked() && p in nodes
      ensures p in ShapeOf() && ShapeOf()[p] == Flags(nodes[p].isEnd, nodes[p].isWild)
    {
      hide Links;
      assert Shows(views[p], nodes[p]);
    }

    lemma ChildAt(p: Path, l: Text)
      requires Linked() && p in nodes && l in nodes[p].children
      ensures Sub(p, l) in nodes && nodes[p].children[l] == nodes[Sub(p, l)]
    {
      hide Links, Sub;
      ChildLink(nodes, views, root, p, l);
      assert Shows(views[p], nodes[p]);
    }

    lemma ChildrenAt(p: Path)
      requires Linked() && p in nodes
      ensures forall l :: Sub(p, l) in ShapeOf() ==> l in nodes[p].children
    {
      hide Links, Sub;
      forall l | Sub(p, l) in ShapeOf() ensures l in nodes[p].children {
        ChildLink(nodes, views, root, p, l);
      }
      assert Shows(views[p], nodes[p]);
    }

    /** Walks down from the root, creating what is missing. */
    method Descend(labels: Path) returns (node: TrieNode)
      requires Linked()
      modifies `nodes, `views, nodes.Values
      ensures Linked() && labels in nodes && node == nodes[labels]
      ensures ShapeOf() == Grown(old(ShapeOf()), labels, |labels|)
      ensures forall q :: q in nodes ==> nodes[q] in old(nodes.Values) || fresh(nodes[q])
    {
      hide Linked, ShapeOf, Sub;
      Keys();
      node := root;
      assert labels[..0] == [];
      for i := 0 to |labels|
        invariant Linked() && labels[..i] in nodes && node == nodes[labels[..i]]
        invariant ShapeOf() == Grown(old(ShapeOf()), labels, i)
        invariant forall q :: q in nodes ==> nodes[q] in old(nodes.Values) || fresh(nodes[q])
      {
        Keys();
        NextPrefix(labels, i);
        node := ChildOrNew(labels[..i], node, labels[i]);
      }
      assert labels[..|labels|] == labels;
    }

    method Add(domain: Text, wildcard: bool)
      requires Valid()
      modifies this, nodes.Values
      ensures Valid()
      ensures Stored() == match PathOf(domain)
                          case None => old(Stored())
                          case Some(p) => Added(old(Stored()), p, wildcard)
      ensures forall q :: q in nodes ==> nodes[q] in old(nodes.Values) || fresh(nodes[q])
    {
      hide Linked, ShapeOf, Grown, Canonical, ContentsOf;
      var d := NormalizeDomain(domain);
      if d == [] { return; }
      var labels := ReversedLabels(d);
      ghost var s := ShapeOf();
      AddCanonical(s, labels, wildcard);
      AddContents(s, labels, wildcard);
      var node := Descend(labels);
      NodeFlags(labels);
      if !node.isEnd { size := size + 1; }
      SetFlags(labels, node, true, wildcard || node.isWild);
    }

    lemma PathLinks(labels: Path, i: nat)
      requires Linked() && i < |labels| && labels[..i] in nodes
      ensures labels[i] in nodes[labels[..i]].children <==> labels[..i + 1] in nodes
      ensures labels[i] in nodes[labels[..i]].children ==>
                nodes[labels[..i]].children[labels[i]] == nodes[labels[..i + 1]]
    {
      hide Links, Sub;
      NextPrefix(labels, i);
      ChildLink(nodes, views, root, labels[..i], labels[i]);
      assert Shows(views[labels[..i]], nodes[labels[..i]]);
    }

    /** A stored path, and every prefix of it, has a node. */
    lemma StoredNodes(p: Path, k: nat)
      requires Valid() && p in Stored() && k <= |p|
      ensures p[..k] in nodes
    {
      hide Linked;
      Keys();
      PrefixesPresent(ShapeOf(), p, k);
    }

    lemma StoredFlags(p: Path)
      requires Valid() && p in nodes
      ensures p in Stored() <==> nodes[p].isEnd
      ensures nodes[p].isWild ==> p in Stored()
      ensures p in Stored() ==> Stored()[p] == nodes[p].isWild
    {
      hide Linked, ShapeOf, Useful;
      NodeFlags(p);
      WildIsEnd(ShapeOf(), p);
    }

    method Contains(domain: Text) returns (r: bool)
      requires Valid()
      ensures r <==> PathOf(domain).Some? && Matches(Stored(), PathOf(domain).value)
    {
      hide Linked, ShapeOf, Canonical, ContentsOf, Stored;
      var d := NormalizeDomain(domain);
      if d == [] { return false; }
      var labels := ReversedLabels(d);
      Keys();
      var node := root;
      assert labels[..0] == [];
      for i := 0 to |labels|
        invariant labels[..i] in nodes && node == nodes[labels[..i]]
        invariant forall k :: 0 < k <= i && k < |labels| && labels[..k] in Stored() ==> !Stored()[labels[..k]]
      {
        PathLinks(labels, i);
        if labels[i] !in node.children {
          NothingBelow(labels, i + 1);
          return false;
        }
        node := node.children[labels[i]];
        StoredFlags(labels[..i + 1]);
        if node.isWild && i < |labels| - 1 { return true; }
      }
      assert labels[..|labels|] == labels;
      StoredFlags(labels);
      return node.isEnd;
    }

    /** Where the walk ends, no longer prefix is stored. */
    lemma NothingBelow(labels: Path, n: nat)
      requires Valid() && n <= |labels| && labels[..n] !in nodes
      ensures forall k :: n <= k <= |labels| ==> labels[..k] !in Stored()
      ensures labels !in Stored()
    {
      hide Valid, Stored;
      forall k | n <= k <= |labels| ensures labels[..k] !in Stored() {
        if labels[..k] in Stored() {
          assert labels[..k][..n] == labels[..n];
          StoredNodes(labels[..k], n);
        }
      }
      assert labels[..|labels|] == labels;
    }

    method Size() returns (n: int)
      requires Valid()
      ensures n == |Stored()|
    {
      return size;
    }

    lemma Childless(p: Path)
      requires Linked() && p in nodes
      ensures nodes[p].children == map[] <==> !HasChild(ShapeOf(), p)
    {
      hide Sub, Up, Last;
      assert Shows(views[p], nodes[p]);
      if l :| l in views[p].kids {
        SubParts(p, l);
        assert Sub(p, l) in ShapeOf() && IsParent(p, Sub(p, l));
      }
      forall q | q in ShapeOf() && IsParent(p, q) ensures Last(q) in views[p].kids {
      }
    }

    /** The cleanup loop: orphans on the path go, from the end upwards. */
    method Prune(labels: Path, stack: seq<TrieNode>)
      requires Linked() && |stack| == |labels| + 1
      requires forall k :: 0 <= k <= |labels| ==> labels[..k] in nodes && nodes[labels[..k]] == stack[k]
      modifies `nodes, `views, nodes.Values
      ensures Linked()
      ensures ShapeOf() == Pruned(old(ShapeOf()), labels)
      ensures nodes.Keys <= old(nodes.Keys) && forall q :: q in nodes ==> nodes[q] == old(nodes[q])
    {
      hide Linked, ShapeOf, Sub, HasChild, Pruned, Up;
      var j := |labels|;
      assert labels[..j] == labels;
      while j > 0
        invariant 0 <= j <= |labels| && Linked()
        invariant forall k :: 0 <= k <= j ==> labels[..k] in nodes && nodes[labels[..k]] == stack[k]
        invariant Pruned(ShapeOf(), labels[..j]) == Pruned(old(ShapeOf()), labels)
        invariant nodes.Keys <= old(nodes.Keys) && forall q :: q in nodes ==> nodes[q] == old(nodes[q])
      {
        var parent, lab := stack[j - 1], labels[j - 1];
        PathLinks(labels, j - 1);
        if lab !in parent.children { break; }
        var child := parent.children[lab];
        NodeFlags(labels[..j]);
        Childless(labels[..j]);
        NextPrefix(labels, j - 1);
        PrunedStep(ShapeOf(), labels[..j], labels[..j - 1], lab);
        if |child.children| == 0 && !child.isEnd && !child.isWild {
          Detach(labels[..j - 1], parent, lab);
        } else {
          break;
        }
        j := j - 1;
      }
      if j == 0 { PrunedRoot(ShapeOf()); }
    }

    method Remove(domain: Text) returns (removed: bool)
      requires Valid()
      modifies this, nodes.Values
      ensures Valid()
      ensures removed <==> PathOf(domain).Some? && PathOf(domain).value in old(Stored())
      ensures Stored() == match PathOf(domain)
                          case None => old(Stored())
                          case Some(p) => old(Stored()) - {p}
      ensures forall q :: q in nodes ==> nodes[q] in old(nodes.Values)
    {
      hide Linked, ShapeOf, Canonical, ContentsOf, Pruned;
      var d := NormalizeDomain(domain);
      if d == [] { return false; }
      var labels := ReversedLabels(d);
      var stack, found := Trace(labels);
      if !found {
        NotThere(Stored(), labels);
        return false;
      }
      var node := stack[|labels|];
      assert labels[..|labels|] == labels;
      StoredFlags(labels);
      if !node.isEnd {
        NotThere(Stored(), labels);
        return false;
      }
      removed := true;
      ghost var s := ShapeOf();
      RemoveShape(s, labels);
      SetFlags(labels, node, false, false);
      size := size - 1;
      Prune(labels, stack);
    }

    /** The nodes from the root along `labels`, unless one is missing. */
    method Trace(labels: Path) returns (stack: seq<TrieNode>, found: bool)
      requires Valid()
      ensures found ==> |stack| == |labels| + 1
      ensures found ==> forall k :: 0 <= k <= |labels| ==> labels[..k] in nodes && nodes[labels[..k]] == stack[k]
      ensures !found ==> labels !in Stored()
    {
      hide Linked, ShapeOf, Canonical, Stored;
      Keys();
      stack := [root];
      assert labels[..0] == [];
      for i := 0 to |labels|
        invariant |stack| == i + 1
        invariant forall k :: 0 <= k <= i ==> labels[..k] in nodes && nodes[labels[..k]] == stack[k]
      {
        PathLinks(labels, i);
        if labels[i] !in stack[i].children {
          NothingBelow(labels, i + 1);
          return stack, false;
        }
        stack := stack + [stack[i].children[labels[i]]];
      }
      found := true;
    }

    method Clear()
      requires Valid()
      modifies this
      ensures Valid() && Stored() == map[]
      ensures forall q :: q in nodes ==> fresh(nodes[q])
    {
      hide Links, Canonical, ShapeFrom, ContentsOf;
      var r := new TrieNode([]);
      OnlyRoot(r);
      root, size := r, 0;
      nodes := map[[] := r];
      views := map[[] := View(map[], Flags(false, false))];
    }

    // -------------------------------------------------------------- merging

    /** The two tries share no node. */
    ghost predicate Apart(other: DomainTrie)
      reads `nodes, other`nodes
    {
      this != other && nodes.Values !! other.nodes.Values
    }

    /** One source node is merged into the node at the same path. */
    method MergeChild(dst: TrieNode, srcChild: TrieNode, lab: Text, ghost path: Path, ghost b: Shape)
      returns (dstChild: TrieNode)
      requires Linked() && path in nodes && nodes[path] == dst && size == |Stored()|
      requires Sub(path, lab) in b && b[Sub(path, lab)] == Flags(srcChild.isEnd, srcChild.isWild)
      requires srcChild !in nodes.Values
      modifies this, nodes.Values
      ensures Linked() && size == |Stored()|
      ensures Sub(path, lab) in nodes && nodes[Sub(path, lab)] == dstChild
      ensures ShapeOf() == MergedOver(old(ShapeOf()), b, {Sub(path, lab)})
      ensures forall q :: q in old(nodes) ==> q in nodes && nodes[q] == old(nodes[q])
      ensures forall q :: q in nodes ==> nodes[q] in old(nodes.Values) || fresh(nodes[q])
    {
      hide Linked, ShapeOf, Sub, ContentsOf;
      ghost var c := Sub(path, lab);
      ghost var s := ShapeOf();
      Keys();
      dstChild := ChildOrNew(path, dst, lab);
      NodeFlags(c);
      ghost var f := Flags(dstChild.isEnd || srcChild.isEnd, dstChild.isWild || srcChild.isWild);
      MergeOne(s, b, c);
      SetContents(s, ShapeOf(), c, f);
      if srcChild.isEnd && !dstChild.isEnd { size := size + 1; }
      SetFlags(c, dstChild, dstChild.isEnd || srcChild.isEnd, dstChild.isWild || srcChild.isWild);
    }

    /** One child of `src` and everything below it. */
    method MergeBranch(dst: TrieNode, src: TrieNode, lab: Text, path: Path, ghost other: DomainTrie, ghost b: Shape)
      requires Linked() && path in nodes && nodes[path] == dst && size == |Stored()|
      requires other.Linked() && path in other.nodes && other.nodes[path] == src && Apart(other)
      requires b == other.ShapeOf() && Rooted(b) && lab in src.children && Sub(path, lab) in b
      modifies this, nodes.Values
      ensures Linked() && size == |Stored()|
      ensures ShapeOf() == MergedOver(old(ShapeOf()), b, Subtree(b, Sub(path, lab)))
      ensures forall q :: q in old(nodes) ==> q in nodes && nodes[q] == old(nodes[q])
      ensures forall q :: q in nodes ==> nodes[q] in old(nodes.Values) || fresh(nodes[q])
      decreases Below(b, path), 0
    {
      hide Linked, ShapeOf, Sub, Stored, Rooted, MergedOver, Branches, Below, Subtree;
      var srcChild := src.children[lab];
      ghost var s, c := ShapeOf(), Sub(path, lab);
      other.ChildAt(path, lab);
      other.NodeFlags(c);
      MoreBranches(b, path, {}, lab);
      var dstChild := MergeChild(dst, srcChild, lab, path, b);
      MergeNode(dstChild, srcChild, Sub(path, lab), other, b);
      MergeMore(s, b, {c}, Below(b, c));
      SubtreeIs(b, c);
    }

    /** mergeNode: the children of `src` in any order, each merged and then descended into. */
    method MergeNode(dst: TrieNode, src: TrieNode, path: Path, ghost other: DomainTrie, ghost b: Shape)
      requires Linked() && path in nodes && nodes[path] == dst && size == |Stored()|
      requires other.Linked() && path in other.nodes && other.nodes[path] == src && Apart(other)
      requires b == other.ShapeOf() && Rooted(b)
      modifies this, nodes.Values
      ensures Linked() && size == |Stored()|
      ensures ShapeOf() == MergedOver(old(ShapeOf()), b, Below(b, path))
      ensures forall q :: q in old(nodes) ==> q in nodes && nodes[q] == old(nodes[q])
      ensures forall q :: q in nodes ==> nodes[q] in old(nodes.Values) || fresh(nodes[q])
      decreases Below(b, path), 1
    {
      hide Linked, ShapeOf, Sub, Stored, Rooted, MergedOver, Branches, Below, Subtree;
      var todo := src.children.Keys;
      ghost var all := todo;
      ghost var s := ShapeOf();
      NoBranches(s, b, path);
      assert all - todo == {};
      while todo != {}
        invariant todo <= all && src.children == old(src.children)
        invariant Linked() && path in nodes && nodes[path] == dst && size == |Stored()|
        invariant other.Linked() && other.nodes == old(other.nodes) && b == other.ShapeOf() && Apart(other)
        invariant ShapeOf() == MergedOver(s, b, Branches(b, path, all - todo))
        invariant forall q :: q in old(nodes) ==> q in nodes && nodes[q] == old(nodes[q])
        invariant forall q :: q in nodes ==> nodes[q] in old(nodes.Values) || fresh(nodes[q])
        decreases todo
      {
        var lab :| lab in todo;
        ghost var c, done := Sub(path, lab), all - todo;
        other.ChildAt(path, lab);
        other.Keys();
        MergeBranch(dst, src, lab, path, other, b);
        MoreBranches(b, path, done, lab);
        MergeMore(s, b, Branches(b, path, done), Subtree(b, c));
        assert all - (todo - {lab}) == done + {lab};
        todo := todo - {lab};
      }
      other.ChildrenAt(path);
      assert all - {} == all;
      AllBranches(b, path, all);
    }

    method Merge(other: DomainTrie?)
      requires Valid()
      requires other != null ==> other.Valid() && Apart(other)
      modifies this, nodes.Values
      ensures Valid()
      ensures other == null ==> Stored() == old(Stored())
      ensures other != null ==> Stored() == Union(old(Stored()), old(other.Stored()))
      ensures other != null ==> other.Valid() && other.Stored() == old(other.Stored())
      ensures forall q :: q in nodes ==> nodes[q] in old(nodes.Values) || fresh(nodes[q])
    {
      hide Linked, ShapeOf, Rooted, Useful, ContentsOf, MergedOver, Below;
      if other == null { return; }
      Keys();
      other.Keys();
      ghost var a, b := ShapeOf(), other.ShapeOf();
      MergeCanonical(a, b);
      MergeContents(a, b);
      MergeNode(root, other.root, [], other, b);
    }
  }

  lemma NoBranches(s: Shape, b: Shape, p: Path)
    ensures Branches(b, p, {}) == {} && MergedOver(s, b, {}) == s
  {
  }

  /** `s` after the node at `c` was made sure of. */
  function Ensured(s: Shape, c: Path): Shape {
    if c in s then s else s[c := Flags(false, false)]
  }

  lemma MergeOne(s: Shape, b: Shape, c: Path)
    requires c in b
    ensures c in Ensured(s, c)
    ensures var e := Ensured(s, c);
            MergedOver(s, b, {c}) == e[c := Flags(e[c].isEnd || b[c].isEnd, e[c].isWild || b[c].isWild)]
  {
  }

  /** How storing flags changes the number of stored domains. */
  lemma SetContents(s: Shape, e: Shape, c: Path, f: Flags)
    requires e == Ensured(s, c) && (e[c].isEnd ==> f.isEnd)
    ensures |ContentsOf(e[c := f])| == |ContentsOf(s)| + if f.isEnd && !e[c].isEnd then 1 else 0
  {
    assert ContentsOf(e) == ContentsOf(s);
    EndsAfter(e, c, f);
    KeyCount(ContentsOf(e), ContentsOf(e[c := f]), c, f.isEnd);
  }

  lemma KeyCount(m: Contents, k: Contents, c: Path, grows: bool)
    requires k.Keys == if grows then m.Keys + {c} else m.Keys
    ensures |k| == |m| + if grows && c !in m then 1 else 0
  {
    assert |k| == |k.Keys| && |m| == |m.Keys|;
    if c in m { assert m.Keys + {c} == m.Keys; }
  }

  lemma EndsAfter(e: Shape, c: Path, f: Flags)
    requires c in e && (e[c].isEnd ==> f.isEnd)
    ensures c in ContentsOf(e) <==> e[c].isEnd
    ensures ContentsOf(e[c := f]).Keys == if f.isEnd then ContentsOf(e).Keys + {c} else ContentsOf(e).Keys
  {
  }

  /** The paths of `b` below `p` that continue with a label in `done`. */
  ghost function Branches(b: Shape, p: Path, done: set<Text>): (r: set<Path>)
    ensures r <= b.Keys
  {
    set q | q in b && p < q && q[|p|] in done
  }

  /** The paths of `b` at and below `c`. */
  ghost function Subtree(b: Shape, c: Path): (r: set<Path>)
    ensures r <= b.Keys
  {
    set q | q in b && c <= q
  }

  lemma SubtreeIs(b: Shape, c: Path)
    requires c in b
    ensures Subtree(b, c) == {c} + Below(b, c)
  {
  }

  lemma MoreBranches(b: Shape, p: Path, done: set<Text>, l: Text)
    requires Sub(p, l) in b
    ensures Branches(b, p, done + {l}) == Branches(b, p, done) + Subtree(b, Sub(p, l))
    ensures Below(b, Sub(p, l)) < Below(b, p)
  {
    forall q | q in b ensures p < q && q[|p|] == l <==> Sub(p, l) <= q {
      if p < q && q[|p|] == l {
        assert q[..|p| + 1] == Sub(p, l);
      }
    }
    assert Sub(p, l) in Below(b, p) && Sub(p, l) !in Below(b, Sub(p, l));
  }

  lemma AllBranches(b: Shape, p: Path, labels: set<Text>)
    requires Rooted(b)
    requires forall l :: Sub(p, l) in b ==> l in labels
    ensures Branches(b, p, labels) == Below(b, p)
  {
    forall q | q in Below(b, p) ensures q in Branches(b, p, labels) {
      PrefixesPresent(b, q, |p| + 1);
      assert q[..|p| + 1] == Sub(p, q[|p|]);
    }
  }

  /** The empty trie. */
  lemma OnlyRoot(r: TrieNode)
    requires r.path == []
    ensures var v: Views := map[[] := View(map[], Flags(false, false))];
            Links(map[[] := r], v, r) && Canonical(ShapeFrom(v)) && ContentsOf(ShapeFrom(v)) == map[]
  {
  }

  /** Two tries that store the same domains are the same structure, node for node. */
  lemma EqualTries(a: DomainTrie, b: DomainTrie)
    requires a.Valid() && b.Valid() && a.Stored() == b.Stored()
    ensures a.nodes.Keys == b.nodes.Keys
    ensures forall p :: p in a.nodes ==>
              a.nodes[p].isEnd == b.nodes[p].isEnd && a.nodes[p].isWild == b.nodes[p].isWild
    ensures a.size == b.size
  {
    hide Canonical, DomainTrie.Linked, DomainTrie.ShapeOf, ContentsOf;
    ShapeDetermined(a.ShapeOf(), b.ShapeOf());
    a.Keys();
    b.Keys();
    forall p | p in a.nodes
      ensures a.nodes[p].isEnd == b.nodes[p].isEnd && a.nodes[p].isWild == b.nodes[p].isWild
    {
      a.NodeFlags(p);
      b.NodeFlags(p);
    }
  }

  // ---------------------------------------------------------------- whole histories

  /** A public operation; the other trie of a merge is an object of its own. */
  datatype Operation =
    | Adding(domain: Text, wildcard: bool)
    | Removing(domain: Text)
    | Clearing
    | Merging(other: DomainTrie)

  /** What an operation means for the contents. */
  datatype Edit =
    | AddEdit(domain: Text, wildcard: bool)
    | RemoveEdit(domain: Text)
    | ClearEdit
    | MergeEdit(contents: Contents)

  function Edited(m: Contents, e: Edit): Contents {
    match e
    case AddEdit(d, w) => if PathOf(d).Some? then Added(m, PathOf(d).value, w) else m
    case RemoveEdit(d) => if PathOf(d).Some? then m - {PathOf(d).value} else m
    case ClearEdit => map[]
    case MergeEdit(b) => Union(m, b)
  }

  /** The contents after a history that starts with an empty trie. */
  function History(edits: seq<Edit>): Contents {
    if edits == [] then map[] else Edited(History(edits[..|edits| - 1]), edits[|edits| - 1])
  }

  ghost predicate Means(op: Operation, e: Edit)
    reads if op.Merging? then {op.other} + op.other.nodes.Values else {}
  {
    match op
    case Adding(d, w) => e == AddEdit(d, w)
    case Removing(d) => e == RemoveEdit(d)
    case Clearing => e == ClearEdit
    case Merging(o) => o.Valid() && e == MergeEdit(o.Stored())
  }

  /** One operation, on a trie that shares nothing with the other trie of a merge. */
  method Perform(t: DomainTrie, op: Operation, ghost e: Edit)
    requires t.Valid() && Means(op, e) && (op.Merging? ==> t.Apart(op.other))
    modifies t, t.nodes.Values
    ensures t.Valid() && t.Stored() == Edited(old(t.Stored()), e)
    ensures forall q :: q in t.nodes ==> t.nodes[q] in old(t.nodes.Values) || fresh(t.nodes[q])
  {
    hide DomainTrie.Valid, DomainTrie.Stored, PathOf, Added, Union;
    match op {
      case Adding(d, w) => t.Add(d, w);
      case Removing(d) => var _ := t.Remove(d);
      case Clearing => t.Clear();
      case Merging(o) => t.Merge(o);
    }
  }

  /** Any sequence of operations on a new trie, other tries merged in as often as one likes. */
  method Replay(ops: seq<Operation>, ghost edits: seq<Edit>) returns (t: DomainTrie)
    requires |edits| == |ops| && forall i :: 0 <= i < |ops| ==> Means(ops[i], edits[i])
    ensures fresh(t) && fresh(t.nodes.Values)
    ensures t.Valid() && t.Stored() == History(edits)
  {
    hide DomainTrie.Valid, DomainTrie.Stored, Edited;
    t := new DomainTrie();
    for i := 0 to |ops|
      invariant fresh(t) && fresh(t.nodes.Values)
      invariant t.Valid() && t.Stored() == History(edits[..i])
    {
      assert edits[..i + 1][..i] == edits[..i];
      Perform(t, ops[i], edits[i]);
    }
    assert edits[..|ops|] == edits;
  }

  /** Two tries with whatever histories: if the histories leave the same contents, the tries are the
      same structure, node for node. */
  method CompareHistories(a: seq<Operation>, b: seq<Operation>, ghost editsA: seq<Edit>, ghost editsB: seq<Edit>)
    returns (s: DomainTrie, t: DomainTrie)
    requires |editsA| == |a| && forall i :: 0 <= i < |a| ==> Means(a[i], editsA[i])
    requires |editsB| == |b| && forall i :: 0 <= i < |b| ==> Means(b[i], editsB[i])
    ensures s.Valid() && s.Stored() == History(editsA) && t.Valid() && t.Stored() == History(editsB)
    ensures History(editsA) == History(editsB) ==>
              && s.nodes.Keys == t.nodes.Keys && s.size == t.size
              && forall p :: p in s.nodes ==>
                   s.nodes[p].isEnd == t.nodes[p].isEnd && s.nodes[p].isWild == t.nodes[p].isWild
  {
    hide DomainTrie.Valid, DomainTrie.Stored, History;
    s := Replay(a, editsA);
    t := Replay(b, editsB);
    if s.Stored() == t.Stored() { EqualTries(s, t); }
  }

  lemma NotThere(m: Contents, p: Path)
    requires p !in m
    ensures m - {p} == m
  {
  }

  lemma PrunedRoot(s: Shape)
    ensures Pruned(s, []) == s
  {
  }

  lemma PrunedStep(s: Shape, p: Path, up: Path, l: Text)
    requires p == Sub(up, l)
    ensures Pruned(s, p) == if Orphan(s, p) then Pruned(s - {p}, up) else s
  {
    hide Sub, Up, Orphan;
    SubParts(up, l);
  }

  lemma NextPrefix(labels: Path, i: nat)
    requires i < |labels|
    ensures Sub(labels[..i], labels[i]) == labels[..i + 1]
  {
  }
}
