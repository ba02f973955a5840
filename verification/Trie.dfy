/** The domain trie: internal/filtering/trie.go. A domain is stored under its labels in reverse
    order; the trie refines a map from such paths to a wildcard flag. */
module Trie {
  import opened Wire
  import opened Names

  type Path = seq<Text>

  // ---------------------------------------------------------------- what a trie means

  /** The stored domains, each with its wildcard flag. */
  type Contents = map<Path, bool>

  /** A domain matches if it is stored, or a proper parent is stored as a wildcard. */
  ghost predicate Matches(m: Contents, p: Path) {
    p in m || exists k :: 0 < k < |p| && p[..k] in m && m[p[..k]]
  }

  function Added(m: Contents, p: Path, wildcard: bool): Contents {
    m[p := wildcard || (p in m && m[p])]
  }

  function Union(a: Contents, b: Contents): Contents {
    map p | p in a.Keys + b.Keys :: (p in a && a[p]) || (p in b && b[p])
  }

  // ---------------------------------------------------------------- shape

  datatype Flags = Flags(isEnd: bool, isWild: bool)

  /** Which nodes there are, by path, and their flags. */
  type Shape = map<Path, Flags>

  function ContentsOf(s: Shape): Contents {
    map p | p in s && s[p].isEnd :: s[p].isWild
  }

  function Up(p: Path): Path
    requires p != []
  {
    p[..|p| - 1]
  }

  predicate IsParent(p: Path, q: Path) {
    q != [] && Up(q) == p
  }

  predicate HasChild(s: Shape, p: Path) {
    exists q :: q in s && IsParent(p, q)
  }

  /** A node is there for a domain of its own or for the sake of a child. */
  predicate Useful(s: Shape, p: Path)
    requires p in s
  {
    s[p].isEnd || HasChild(s, p)
  }

  /** A root that stores nothing, every node's parent, and wildcards only on stored domains. */
  ghost predicate Rooted(s: Shape) {
    && [] in s && !s[[]].isEnd
    && (forall p {:trigger Up(p)} :: p in s && p != [] ==> Up(p) in s)
    && (forall p :: p in s && s[p].isWild ==> s[p].isEnd)
  }

  /** Rooted, and no node without a purpose, with the possible exception of `p`. */
  ghost predicate CanonicalBut(s: Shape, p: Path) {
    Rooted(s) && forall q {:trigger Useful(s, q)} :: q in s && q != [] && q != p ==> Useful(s, q)
  }

  ghost predicate Canonical(s: Shape) {
    CanonicalBut(s, [])
  }

  /** Descending from any node of a canonical shape reaches a stored domain. */
  lemma {:induction false} LeadsToEnd(s: Shape, p: Path, below: set<Path>) returns (q: Path)
    requires Canonical(s) && p in s && p != []
    requires below == Below(s, p)
    ensures q in s && s[q].isEnd && p <= q
    decreases below
  {
    if s[p].isEnd {
      q := p;
    } else {
      assert Useful(s, p);
      var c :| c in s && IsParent(p, c);
      var less := Below(s, c);
      assert c in below && c !in less && less <= below;
      q := LeadsToEnd(s, c, less);
    }
  }

  /** Every node but the root lies on the path to a stored domain. */
  lemma NodesAreStems(s: Shape, p: Path)
    requires Canonical(s)
    ensures p in s <==> p == [] || exists q :: q in ContentsOf(s) && p <= q
  {
    if p in s && p != [] {
      var q := LeadsToEnd(s, p, Below(s, p));
      assert q in ContentsOf(s);
    }
    forall q | q in ContentsOf(s) && p <= q ensures p in s {
      PrefixesPresent(s, q, |p|);
      assert q[..|p|] == p;
    }
  }

  lemma {:induction false} PrefixesPresent(s: Shape, q: Path, k: nat)
    requires Rooted(s) && q in s && k <= |q|
    ensures q[..k] in s
    decreases |q| - k
  {
    if k < |q| {
      PrefixesPresent(s, q, k + 1);
      assert Up(q[..k + 1]) == q[..k];
    } else {
      assert q[..k] == q;
    }
  }

  /** Shapes are canonical: equal contents mean equal structure, whatever the histories. */
  lemma ShapeDetermined(a: Shape, b: Shape)
    requires Canonical(a) && Canonical(b) && ContentsOf(a) == ContentsOf(b)
    ensures a == b
  {
    hide Canonical;
    forall p ensures p in a <==> p in b {
      NodesAreStems(a, p);
      NodesAreStems(b, p);
    }
    forall p | p in a ensures a[p] == b[p] {
      assert p in ContentsOf(a) <==> a[p].isEnd;
      assert p in ContentsOf(b) <==> b[p].isEnd;
      EndsOnly(a, p);
      EndsOnly(b, p);
    }
  }

  lemma EndsOnly(s: Shape, p: Path)
    requires Canonical(s) && p in s
    ensures s[p].isWild ==> s[p].isEnd
  {
  }

  /** The paths of `b` strictly below `p`. */
  ghost function Below(b: Shape, p: Path): (r: set<Path>)
    ensures r <= b.Keys
  {
    set q | q in b && p <= q && q != p
  }

  // ---------------------------------------------------------------- building paths

  predicate IsSpace(b: Byte) { b == 32 || 9 <= b <= 13 }

  /** ASCII strings.TrimSpace. */
  function TrimSpace(s: Text): Text {
    if s != [] && IsSpace(s[0]) then TrimSpace(s[1..])
    else if s != [] && IsSpace(s[|s| - 1]) then TrimSpace(s[..|s| - 1])
    else s
  }

  function NormalizeDomain(d: Text): Text {
    TrimSuffixDot(Lower(TrimSpace(d)))
  }

  function Reverse(ls: seq<Text>): (r: seq<Text>)
    ensures |r| == |ls|
    ensures forall i :: 0 <= i < |ls| ==> r[i] == ls[|ls| - 1 - i]
  {
    if ls == [] then [] else Reverse(ls[1..]) + [ls[0]]
  }

  /** Where a domain is stored; the empty domain nowhere. */
  function PathOf(domain: Text): (p: Option<Path>)
    ensures p.Some? ==> p.value != []
  {
    var d := NormalizeDomain(domain);
    if d == [] then None else Some(Reverse(Split(d)))
  }

  /** reversedLabels: the split labels are swapped in place. */
  method ReversedLabels(domain: Text) returns (r: Path)
    ensures r == Reverse(Split(domain))
  {
    hide Split, Reverse;
    var ls := Split(domain);
    var n := |ls|;
    var labels := new Text[n](i requires 0 <= i < n => ls[i]);
    for i := 0 to n / 2
      invariant forall k :: 0 <= k < i || n - i <= k < n ==> labels[k] == ls[n - 1 - k]
      invariant forall k :: i <= k < n - i ==> labels[k] == ls[k]
    {
      labels[i], labels[n - 1 - i] := labels[n - 1 - i], labels[i];
    }
    r := labels[..];
  }

  lemma SplitDotted(a: Text, b: Text)
    ensures Split(a + [DOT] + b) == Split(a) + Split(b)
  {
    hide Split, Join;
    JoinSplit(a);
    JoinSplit(b);
    JoinAppend(Split(a), Split(b));
    SplitJoin(Split(a) + Split(b));
  }

  /** A subdomain's path extends its parent's, so a stored wildcard matches every subdomain. */
  lemma WildcardMatchesSubdomains(m: Contents, sub: Text, parent: Text)
    requires Reverse(Split(parent)) in m && m[Reverse(Split(parent))]
    ensures Matches(m, Reverse(Split(sub + [DOT] + parent)))
  {
    SplitDotted(sub, parent);
    var p, q := Reverse(Split(sub + [DOT] + parent)), Reverse(Split(parent));
    assert p[..|q|] == q;
  }

  // ---------------------------------------------------------------- spellings

  /** Blanks, and the controls from tab to carriage return. */
  predicate Spaces(s: Text) { forall i :: 0 <= i < |s| ==> s[i] == 32 || 9 <= s[i] <= 13 }

  /** Text without outer white space. */
  predicate Tight(s: Text) { s != [] && !Spaces([s[0]]) && !Spaces([s[|s| - 1]]) }

  lemma {:induction false} TrimsBoth(pre: Text, s: Text, post: Text)
    requires Spaces(pre) && Spaces(post) && Tight(s)
    ensures TrimSpace(pre + s + post) == s
    decreases |pre| + |post|
  {
    var all := pre + s + post;
    if pre != [] {
      assert all[1..] == pre[1..] + s + post;
      TrimsBoth(pre[1..], s, post);
    } else if post != [] {
      assert all[..|all| - 1] == pre + s + post[..|post| - 1];
      TrimsBoth(pre, s, post[..|post| - 1]);
    } else {
      assert all == s;
    }
  }

  /** Spellings that differ in case, outer white space or one trailing dot name the same domain. */
  lemma SameSpelling(a: Text, b: Text, pre: Text, post: Text, dot: bool)
    requires Spaces(pre) && Spaces(post) && Tight(a) && Tight(b) && Lower(a) == Lower(b)
    requires a[|a| - 1] != DOT
    ensures var spelled := pre + a + (if dot then [DOT] else []) + post;
            NormalizeDomain(spelled) == NormalizeDomain(b) == Lower(b) && PathOf(spelled) == PathOf(b)
  {
    hide TrimSpace, PathOf, Lower;
    var core := a + if dot then [DOT] else [];
    assert Tight(core);
    assert pre + a + (if dot then [DOT] else []) + post == pre + core + post;
    TrimsBoth(pre, core, post);
    assert [] + b + [] == b;
    TrimsBoth([], b, []);
    var l := Lower(core);
    assert l[..|a|] == Lower(a);
    assert Lower(a)[|a| - 1] != DOT;
    assert TrimSuffixDot(l) == Lower(a);
    assert TrimSuffixDot(Lower(b)) == Lower(b);
    SamePath(pre + a + (if dot then [DOT] else []) + post, b);
  }

  /** A path belongs to one normalized domain. */
  lemma SamePath(a: Text, b: Text)
    ensures PathOf(a) == PathOf(b) <==> NormalizeDomain(a) == NormalizeDomain(b)
  {
    hide NormalizeDomain, Split, Join, Reverse;
    var x, y := NormalizeDomain(a), NormalizeDomain(b);
    if PathOf(a) == PathOf(b) && x != [] {
      ReverseTwice(Split(x));
      ReverseTwice(Split(y));
      JoinSplit(x);
      JoinSplit(y);
    }
  }

  lemma ReverseTwice(ls: seq<Text>)
    ensures Reverse(Reverse(ls)) == ls
  {
    hide Reverse;
  }

  lemma ReverseAppend(a: seq<Text>, b: seq<Text>)
    ensures Reverse(a + b) == Reverse(b) + Reverse(a)
  {
    hide Reverse;
  }

  // ---------------------------------------------------------------- what a stored domain matches

  /** Adding a domain makes exactly it match, and everything below it if it is a wildcard; nothing
      that matched is lost. */
  lemma AddedMatches(m: Contents, p: Path, wildcard: bool, q: Path)
    requires p != []
    ensures Matches(Added(m, p, wildcard), q) <==> Matches(m, q) || q == p || (wildcard && p < q)
  {
    var a := Added(m, p, wildcard);
    if k :| 0 < k < |q| && q[..k] in a && a[q[..k]] {
      if q[..k] != p { assert q[..k] in m && m[q[..k]]; }
    }
    if k :| 0 < k < |q| && q[..k] in m && m[q[..k]] {
      assert q[..k] in a && a[q[..k]];
    }
    if wildcard && p < q {
      assert q[..|p|] == p;
    }
  }

  /** A merged trie matches exactly what one of the two matches. */
  lemma UnionMatches(a: Contents, b: Contents, q: Path)
    ensures Matches(Union(a, b), q) <==> Matches(a, q) || Matches(b, q)
  {
    var u := Union(a, b);
    if k :| 0 < k < |q| && q[..k] in u && u[q[..k]] {
      assert (q[..k] in a && a[q[..k]]) || (q[..k] in b && b[q[..k]]);
    }
    if k :| 0 < k < |q| && q[..k] in a && a[q[..k]] {
      assert q[..k] in u && u[q[..k]];
    }
    if k :| 0 < k < |q| && q[..k] in b && b[q[..k]] {
      assert q[..k] in u && u[q[..k]];
    }
  }

  /** The rule on domain names: a stored domain matches itself and, if it is a wildcard, every name
      that ends in a dot and that domain. */
  lemma MatchesByName(domain: Text, wildcard: bool, name: Text)
    requires PathOf(domain).Some? && PathOf(name).Some?
    ensures var d, n := NormalizeDomain(domain), NormalizeDomain(name);
            Matches(Added(map[], PathOf(domain).value, wildcard), PathOf(name).value)
            <==> n == d || (wildcard && EndsIn(n, d))
  {
    hide NormalizeDomain, Split, Join, Matches, Added, Reverse;
    var d, n := NormalizeDomain(domain), NormalizeDomain(name);
    AddedMatches(map[], PathOf(domain).value, wildcard, PathOf(name).value);
    NothingMatches(PathOf(name).value);
    SamePath(domain, name);
    BelowIff(n, d);
  }

  /** `n` is a subdomain of `d`. */
  predicate EndsIn(n: Text, d: Text) {
    |n| > |d| && n[|n| - |d|..] == d && n[|n| - |d| - 1] == DOT
  }

  lemma NothingMatches(p: Path)
    ensures !Matches(map[], p)
  {
  }

  lemma BelowIff(n: Text, d: Text)
    ensures Reverse(Split(d)) < Reverse(Split(n)) <==> EndsIn(n, d)
  {
    hide Split, Reverse;
    if EndsIn(n, d) {
      var sub := n[..|n| - |d| - 1];
      assert n == sub + [DOT] + d;
      SplitDotted(sub, d);
      ReverseAppend(Split(sub), Split(d));
    }
    if Reverse(Split(d)) < Reverse(Split(n)) {
      var sub := Above(n, d);
      assert n == sub + [DOT] + d;
    }
  }

  /** The text in front of a parent domain. */
  lemma Above(n: Text, d: Text) returns (sub: Text)
    requires Reverse(Split(d)) < Reverse(Split(n))
    ensures n == sub + [DOT] + d
  {
    hide Split, Join, Reverse;
    var p, q := Reverse(Split(d)), Reverse(Split(n));
    var more := q[|p|..];
    assert q == p + more;
    ReverseAppend(p, more);
    ReverseTwice(Split(n));
    ReverseTwice(Split(d));
    JoinSplit(n);
    JoinSplit(d);
    JoinAppend(Reverse(more), Split(d));
    sub := Join(Reverse(more));
  }

  // ---------------------------------------------------------------- edits of a shape

  /** The shape with every prefix of `p` up to length `n` present. */
  function Grown(s: Shape, p: Path, n: nat): (g: Shape)
    requires n <= |p|
  {
    if n == 0 then s
    else
      var g := Grown(s, p, n - 1);
      if p[..n] in g then g else g[p[..n] := Flags(false, false)]
  }

  lemma {:induction false} GrownFacts(s: Shape, p: Path, n: nat)
    requires n <= |p| && [] in s
    ensures s.Keys <= Grown(s, p, n).Keys
    ensures forall q :: q in s ==> Grown(s, p, n)[q] == s[q]
    ensures forall k :: 0 <= k <= n ==> p[..k] in Grown(s, p, n)
    ensures forall q :: q in Grown(s, p, n) && q !in s ==>
              Grown(s, p, n)[q] == Flags(false, false) && 0 < |q| <= n && q == p[..|q|]
  {
    if n > 0 {
      GrownFacts(s, p, n - 1);
    }
  }

  /** The shape after storing `p`. */
  function ShapeAdded(s: Shape, p: Path, wildcard: bool): Shape
    requires p in Grown(s, p, |p|)
  {
    var g := Grown(s, p, |p|);
    g[p := Flags(true, wildcard || g[p].isWild)]
  }

  /** A child in the smaller shape is a child in the larger one. */
  lemma ChildStays(s: Shape, t: Shape, p: Path)
    requires HasChild(s, p) && forall q :: q in s && IsParent(p, q) ==> q in t
    ensures HasChild(t, p)
  {
    var q :| q in s && IsParent(p, q);
    assert q in t;
  }

  lemma GrownPaths(s: Shape, p: Path)
    requires Rooted(s) && p != []
    ensures p in Grown(s, p, |p|)
    ensures if p in s then Grown(s, p, |p|)[p] == s[p] else !Grown(s, p, |p|)[p].isEnd
    ensures Rooted(Grown(s, p, |p|))
  {
    hide Grown;
    var g := Grown(s, p, |p|);
    GrownFacts(s, p, |p|);
    assert p[..|p|] == p;
    forall q | q in g && q != [] ensures Up(q) in g {
      if q !in s {
        assert Up(q) == p[..|q| - 1];
      }
    }
  }

  lemma AddedUseful(s: Shape, p: Path, q: Path)
    requires Canonical(s) && p != []
    requires q in Grown(s, p, |p|) && q != [] && q != p
    ensures Useful(Grown(s, p, |p|), q)
  {
    hide Grown, HasChild;
    var g := Grown(s, p, |p|);
    GrownFacts(s, p, |p|);
    if q in s {
      assert Useful(s, q);
      if !s[q].isEnd { ChildStays(s, g, q); }
    } else {
      var c := p[..|q| + 1];
      assert c in g;
      assert Up(c) == q;
      ChildPresent(g, q, c);
    }
  }

  lemma ChildPresent(s: Shape, p: Path, c: Path)
    requires c in s && IsParent(p, c)
    ensures HasChild(s, p)
  {
  }

  lemma AddCanonical(s: Shape, p: Path, wildcard: bool)
    requires Canonical(s) && p != []
    ensures p in Grown(s, p, |p|) && Canonical(ShapeAdded(s, p, wildcard))
  {
    hide Grown, HasChild;
    GrownPaths(s, p);
    var g := Grown(s, p, |p|);
    var a := ShapeAdded(s, p, wildcard);
    assert a.Keys == g.Keys;
    forall q | q in a && q != [] ensures Useful(a, q) {
      if q != p {
        AddedUseful(s, p, q);
        if !g[q].isEnd { ChildStays(g, a, q); }
      }
    }
  }

  lemma AddContents(s: Shape, p: Path, wildcard: bool)
    requires Canonical(s) && p != []
    ensures p in Grown(s, p, |p|)
    ensures ContentsOf(ShapeAdded(s, p, wildcard)) == Added(ContentsOf(s), p, wildcard)
    ensures Grown(s, p, |p|)[p].isEnd <==> p in ContentsOf(s)
  {
    hide Grown, Rooted, Useful;
    GrownPaths(s, p);
    WildIsEnd(s, p);
    GrownFacts(s, p, |p|);
    assert p[..|p|] == p;
    var a, m := ContentsOf(ShapeAdded(s, p, wildcard)), Added(ContentsOf(s), p, wildcard);
    assert a.Keys == m.Keys;
  }

  lemma WildIsEnd(s: Shape, p: Path)
    requires Rooted(s)
    ensures [] in s && !s[[]].isEnd
    ensures p in s && s[p].isWild ==> s[p].isEnd
  {
  }

  /** Nothing depends on the node at `p`. */
  predicate Orphan(s: Shape, p: Path) {
    p in s && !s[p].isEnd && !s[p].isWild && !HasChild(s, p)
  }

  /** Removing orphans upwards from `p`. */
  function Pruned(s: Shape, p: Path): Shape
    decreases |p|
  {
    if p != [] && Orphan(s, p) then Pruned(s - {p}, Up(p)) else s
  }

  lemma {:induction false} PruneCanonical(s: Shape, p: Path)
    requires CanonicalBut(s, p) && p in s
    ensures Canonical(Pruned(s, p))
    ensures ContentsOf(Pruned(s, p)) == ContentsOf(s)
    decreases |p|
  {
    hide Rooted, HasChild, ContentsOf;
    if p != [] {
      if Orphan(s, p) {
        DropOrphan(s, p);
        PruneCanonical(s - {p}, Up(p));
      } else {
        assert Useful(s, p) by { NotOrphan(s, p); }
      }
    }
  }

  lemma NotOrphan(s: Shape, p: Path)
    requires Rooted(s) && p in s && !Orphan(s, p)
    ensures Useful(s, p)
  {
  }

  lemma DropOrphan(s: Shape, p: Path)
    requires CanonicalBut(s, p) && p != [] && Orphan(s, p)
    ensures CanonicalBut(s - {p}, Up(p)) && Up(p) in s - {p}
    ensures ContentsOf(s - {p}) == ContentsOf(s)
  {
    hide HasChild;
    var t, up := s - {p}, Up(p);
    forall q | q in t && q != [] ensures Up(q) in t {
      if Up(q) == p { ChildPresent(s, p, q); }
    }
    forall q | q in t && q != [] && q != up ensures Useful(t, q) {
      assert Useful(s, q);
      if !s[q].isEnd { ChildStays(s, t, q); }
    }
  }

  lemma ClearedCanonical(s: Shape, p: Path)
    requires Canonical(s) && p in s && p != []
    ensures CanonicalBut(s[p := Flags(false, false)], p)
  {
    hide HasChild;
    var t := s[p := Flags(false, false)];
    forall q | q in t && q != [] && q != p ensures Useful(t, q) {
      assert Useful(s, q);
      if !s[q].isEnd { ChildStays(s, t, q); }
    }
  }

  /** Clearing a stored domain and pruning deletes exactly that domain. */
  lemma RemoveShape(s: Shape, p: Path)
    requires Canonical(s) && p in ContentsOf(s)
    ensures p != [] && Canonical(Pruned(s[p := Flags(false, false)], p))
    ensures ContentsOf(Pruned(s[p := Flags(false, false)], p)) == ContentsOf(s) - {p}
    ensures |ContentsOf(s) - {p}| == |ContentsOf(s)| - 1
  {
    hide Pruned, Useful;
    ClearedCanonical(s, p);
    PruneCanonical(s[p := Flags(false, false)], p);
    assert ContentsOf(s[p := Flags(false, false)]) == ContentsOf(s) - {p};
    assert (ContentsOf(s) - {p}).Keys == ContentsOf(s).Keys - {p};
  }

  function OrFlags(a: Shape, b: Shape, q: Path): Flags
    requires q in b
  {
    if q in a then Flags(a[q].isEnd || b[q].isEnd, a[q].isWild || b[q].isWild) else b[q]
  }

  /** `a` with the nodes of `b` at the paths in `sel` merged in. */
  function MergedOver(a: Shape, b: Shape, sel: set<Path>): Shape
    requires sel <= b.Keys
  {
    map q | q in a.Keys + sel :: if q in sel then OrFlags(a, b, q) else a[q]
  }

  lemma MergeMore(a: Shape, b: Shape, x: set<Path>, y: set<Path>)
    requires x <= b.Keys && y <= b.Keys
    ensures MergedOver(MergedOver(a, b, x), b, y) == MergedOver(a, b, x + y)
  {
  }

  lemma MergeCanonical(a: Shape, b: Shape)
    requires Canonical(a) && Canonical(b)
    ensures Canonical(MergedOver(a, b, Below(b, [])))
  {
    hide HasChild;
    var m := MergedOver(a, b, Below(b, []));
    MergedKeys(a, b);
    forall q | q in m && q != [] ensures Up(q) in m {
      assert Up(q) in a || Up(q) in b;
    }
    forall q | q in m && q != [] ensures Useful(m, q) {
      if q in a {
        assert Useful(a, q);
        if !a[q].isEnd { ChildStays(a, m, q); }
      } else {
        assert Useful(b, q);
        if !b[q].isEnd { ChildStays(b, m, q); }
      }
    }
  }

  lemma MergedKeys(a: Shape, b: Shape)
    requires [] in a && [] in b
    ensures MergedOver(a, b, Below(b, [])).Keys == a.Keys + b.Keys
    ensures Below(b, []) == b.Keys - {[]}
  {
  }

  lemma MergeContents(a: Shape, b: Shape)
    requires Rooted(a) && Rooted(b)
    ensures ContentsOf(MergedOver(a, b, Below(b, []))) == Union(ContentsOf(a), ContentsOf(b))
  {
    hide Rooted, Below;
    WildIsEnd(a, []);
    WildIsEnd(b, []);
    MergedKeys(a, b);
    var m, u := ContentsOf(MergedOver(a, b, Below(b, []))), Union(ContentsOf(a), ContentsOf(b));
    assert m.Keys == u.Keys;
    forall p | p in m ensures m[p] == u[p] {
      WildIsEnd(a, p);
      WildIsEnd(b, p);
    }
  }
}
