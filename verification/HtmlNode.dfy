/** The node tree of net/html/node.go: each node has five pointers, and every operation keeps those of
    all nodes in step with one sequence of children per node. */
module HtmlNode {
  import opened ByteSeqs

  class Node {
    var parent: Node?
    var firstChild: Node?
    var lastChild: Node?
    var prevSibling: Node?
    var nextSibling: Node?
    ghost var children: seq<Node>

    constructor ()
      ensures parent == firstChild == lastChild == prevSibling == nextSibling == null && children == []
    {
      parent, firstChild, lastChild, prevSibling, nextSibling := null, null, null, null, null;
      children := [];
    }
  }

  /** The pointers of some nodes at one time. */
  datatype Graph = Graph(
    parents: map<Node, Node?>, firsts: map<Node, Node?>, lasts: map<Node, Node?>,
    prevs: map<Node, Node?>, nexts: map<Node, Node?>, lists: map<Node, seq<Node>>)
  {
    ghost function Kids(n: Node): seq<Node> { if n in lists then lists[n] else [] }
  }

  /** A pointer in a map of pointers. */
  ghost function Of(m: map<Node, Node?>, n: Node): Node? { if n in m then m[n] else null }

  ghost function Set(m: map<Node, Node?>, n: Node?, v: Node?): map<Node, Node?> {
    if n == null then m else m[n := v]
  }

  ghost function At(s: seq<Node>, i: int): Node? {
    if 0 <= i < |s| then s[i] else null
  }

  /** A child's pointers, where it is the i-th in its parent's sequence. */
  ghost predicate ChildOk(g: Graph, nodes: set<Node>, n: Node, i: nat) {
    var kids := g.Kids(n);
    i < |kids| && kids[i] in nodes && Of(g.parents, kids[i]) == n
    && Of(g.prevs, kids[i]) == At(kids, i - 1) && Of(g.nexts, kids[i]) == At(kids, i + 1)
  }

  /** A node's own two pointers and the three of each of its children. */
  ghost predicate ListOk(g: Graph, nodes: set<Node>, n: Node) {
    var kids := g.Kids(n);
    && Distinct(kids) && Of(g.firsts, n) == At(kids, 0) && Of(g.lasts, n) == At(kids, |kids| - 1)
    && forall i: nat {:trigger ChildOk(g, nodes, n, i)} :: i < |kids| ==> ChildOk(g, nodes, n, i)
  }

  ghost predicate IsAt(kids: seq<Node>, i: nat, c: Node) { i < |kids| && kids[i] == c }

  ghost predicate Listed(kids: seq<Node>, c: Node) { exists i: nat :: IsAt(kids, i, c) }

  /** A node is listed by its parent, or it has neither a parent nor siblings. */
  ghost predicate LinkOk(g: Graph, nodes: set<Node>, c: Node) {
    var p := Of(g.parents, c);
    if p == null then Of(g.prevs, c) == null && Of(g.nexts, c) == null else p in nodes && Listed(g.Kids(p), c)
  }

  /** All pointers of all nodes agree with the sequences of children. */
  ghost predicate Ok(g: Graph, nodes: set<Node>) {
    && (forall n {:trigger ListOk(g, nodes, n)} :: n in nodes ==> ListOk(g, nodes, n))
    && (forall c {:trigger LinkOk(g, nodes, c)} :: c in nodes ==> LinkOk(g, nodes, c))
  }

  /** Only its parent lists a child, and once. */
  lemma ListedOnce(g: Graph, nodes: set<Node>, m: Node, i: nat)
    requires Ok(g, nodes) && m in nodes && i < |g.Kids(m)|
    ensures ChildOk(g, nodes, m, i) && Distinct(g.Kids(m))
  {
    assert ListOk(g, nodes, m);
  }

  // ---------------------------------------------------------------- insertion

  ghost predicate CanInsert(g: Graph, nodes: set<Node>, n: Node, c: Node, i: nat) {
    Ok(g, nodes) && n in nodes && c in nodes && Of(g.parents, c) == null && i <= |g.Kids(n)|
  }

  /** c becomes the child of n at place i. */
  ghost function Inserted(g: Graph, n: Node, c: Node, i: nat): Graph
    requires i <= |g.Kids(n)|
  {
    var kids := g.Kids(n);
    var p, q := At(kids, i - 1), At(kids, i);
    Graph(g.parents[c := n],
          if p == null then g.firsts[n := c] else g.firsts, if q == null then g.lasts[n := c] else g.lasts,
      Set(g.prevs, q, c)[c := p], Set(g.nexts, p, c)[c := q], g.lists[n := kids[..i] + [c] + kids[i..]])
  }

  /** Inserting leaves each child's neighbours what they should be. */
  lemma InsertedChild(g: Graph, nodes: set<Node>, n: Node, c: Node, i: nat, k: nat)
    requires CanInsert(g, nodes, n, c, i) && k <= |g.Kids(n)|
    ensures ChildOk(Inserted(g, n, c, i), nodes, n, k)
  {
    if k < i {
      InsertedBehind(g, nodes, n, c, i, k);
    } else {
      if i > 0 { ListedOnce(g, nodes, n, i - 1); }
      if i < |g.Kids(n)| { ListedOnce(g, nodes, n, i); }
      if k > i { InsertedBefore(g, nodes, n, c, i, k); }
    }
  }

  lemma InsertedBehind(g: Graph, nodes: set<Node>, n: Node, c: Node, i: nat, k: nat)
    requires CanInsert(g, nodes, n, c, i) && k < i
    ensures ChildOk(Inserted(g, n, c, i), nodes, n, k)
  {
    ListedOnce(g, nodes, n, k);
    ListedOnce(g, nodes, n, i - 1);
  }

  lemma InsertedBefore(g: Graph, nodes: set<Node>, n: Node, c: Node, i: nat, k: nat)
    requires CanInsert(g, nodes, n, c, i) && i < k <= |g.Kids(n)|
    ensures ChildOk(Inserted(g, n, c, i), nodes, n, k)
  {
    ListedOnce(g, nodes, n, k - 1);
    ListedOnce(g, nodes, n, i);
  }

  lemma InsertedHere(g: Graph, nodes: set<Node>, n: Node, c: Node, i: nat)
    requires CanInsert(g, nodes, n, c, i)
    ensures ListOk(Inserted(g, n, c, i), nodes, n)
  {
    var g' := Inserted(g, n, c, i);
    var kids := g.Kids(n);
    assert ListOk(g, nodes, n);
    forall k | 0 <= k < |kids| ensures kids[k] != c { ListedOnce(g, nodes, n, k); }
    forall k: nat | k < |g'.Kids(n)| ensures ChildOk(g', nodes, n, k) { InsertedChild(g, nodes, n, c, i, k); }
  }

  lemma InsertedElsewhere(g: Graph, nodes: set<Node>, n: Node, c: Node, i: nat, m: Node)
    requires CanInsert(g, nodes, n, c, i) && m in nodes && m != n
    ensures ListOk(Inserted(g, n, c, i), nodes, m)
  {
    var g' := Inserted(g, n, c, i);
    assert ListOk(g, nodes, m);
    if i > 0 { ListedOnce(g, nodes, n, i - 1); }
    if i < |g.Kids(n)| { ListedOnce(g, nodes, n, i); }
    forall k: nat | k < |g.Kids(m)| ensures ChildOk(g', nodes, m, k) { ListedOnce(g, nodes, m, k); }
  }

  lemma InsertedLink(g: Graph, nodes: set<Node>, n: Node, c: Node, i: nat, d: Node)
    requires CanInsert(g, nodes, n, c, i) && d in nodes
    ensures LinkOk(Inserted(g, n, c, i), nodes, d)
  {
    var g' := Inserted(g, n, c, i);
    var kids := g.Kids(n);
    assert LinkOk(g, nodes, d);
    if i > 0 { ListedOnce(g, nodes, n, i - 1); }
    if i < |kids| { ListedOnce(g, nodes, n, i); }
    if d == c {
      assert IsAt(g'.Kids(n), i, c);
    } else if Of(g.parents, d) == n {
      var k: nat :| IsAt(kids, k, d);
      assert IsAt(g'.Kids(n), if k < i then k else k + 1, d);
    }
  }

  lemma InsertedOk(g: Graph, nodes: set<Node>, n: Node, c: Node, i: nat)
    requires CanInsert(g, nodes, n, c, i)
    ensures Ok(Inserted(g, n, c, i), nodes)
  {
    var g' := Inserted(g, n, c, i);
    forall m | m in nodes ensures ListOk(g', nodes, m) {
      if m == n { InsertedHere(g, nodes, n, c, i); } else { InsertedElsewhere(g, nodes, n, c, i, m); }
    }
    forall d | d in nodes ensures LinkOk(g', nodes, d) { InsertedLink(g, nodes, n, c, i, d); }
  }

  // ---------------------------------------------------------------- removal

  ghost predicate CanRemove(g: Graph, nodes: set<Node>, n: Node, i: nat) {
    Ok(g, nodes) && n in nodes && i < |g.Kids(n)|
  }

  /** n loses its child at place i. */
  ghost function Removed(g: Graph, n: Node, i: nat): Graph
    requires i < |g.Kids(n)|
  {
    var kids := g.Kids(n);
    var c, p, q := kids[i], At(kids, i - 1), At(kids, i + 1);
    Graph(g.parents[c := null],
          if p == null then g.firsts[n := q] else g.firsts, if q == null then g.lasts[n := p] else g.lasts,
      Set(g.prevs, q, p)[c := null], Set(g.nexts, p, q)[c := null], g.lists[n := kids[..i] + kids[i + 1..]])
  }

  lemma RemovedBefore(g: Graph, nodes: set<Node>, n: Node, i: nat, k: nat)
    requires CanRemove(g, nodes, n, i) && k < i
    ensures ChildOk(Removed(g, n, i), nodes, n, k)
  {
    ListedOnce(g, nodes, n, k);
    ListedOnce(g, nodes, n, i);
  }

  lemma RemovedBehind(g: Graph, nodes: set<Node>, n: Node, i: nat, k: nat)
    requires CanRemove(g, nodes, n, i) && i <= k < |g.Kids(n)| - 1
    ensures ChildOk(Removed(g, n, i), nodes, n, k)
  {
    ListedOnce(g, nodes, n, k + 1);
    ListedOnce(g, nodes, n, i);
  }

  lemma RemovedHere(g: Graph, nodes: set<Node>, n: Node, i: nat)
    requires CanRemove(g, nodes, n, i)
    ensures ListOk(Removed(g, n, i), nodes, n)
  {
    var g' := Removed(g, n, i);
    assert ListOk(g, nodes, n);
    forall k: nat | k < |g'.Kids(n)| ensures ChildOk(g', nodes, n, k) {
      if k < i { RemovedBefore(g, nodes, n, i, k); } else { RemovedBehind(g, nodes, n, i, k); }
    }
  }

  lemma RemovedElsewhere(g: Graph, nodes: set<Node>, n: Node, i: nat, m: Node)
    requires CanRemove(g, nodes, n, i) && m in nodes && m != n
    ensures ListOk(Removed(g, n, i), nodes, m)
  {
    var g' := Removed(g, n, i);
    assert ListOk(g, nodes, m);
    ListedOnce(g, nodes, n, i);
    if i > 0 { ListedOnce(g, nodes, n, i - 1); }
    if i + 1 < |g.Kids(n)| { ListedOnce(g, nodes, n, i + 1); }
    forall k: nat | k < |g.Kids(m)| ensures ChildOk(g', nodes, m, k) { ListedOnce(g, nodes, m, k); }
  }

  lemma RemovedLink(g: Graph, nodes: set<Node>, n: Node, i: nat, d: Node)
    requires CanRemove(g, nodes, n, i) && d in nodes
    ensures LinkOk(Removed(g, n, i), nodes, d)
  {
    var g' := Removed(g, n, i);
    var kids := g.Kids(n);
    assert LinkOk(g, nodes, d);
    ListedOnce(g, nodes, n, i);
    if i > 0 { ListedOnce(g, nodes, n, i - 1); }
    if i + 1 < |kids| { ListedOnce(g, nodes, n, i + 1); }
    if d != kids[i] && Of(g.parents, d) == n {
      var k: nat :| IsAt(kids, k, d);
      assert IsAt(g'.Kids(n), if k < i then k else k - 1, d);
    }
  }

  lemma RemovedOk(g: Graph, nodes: set<Node>, n: Node, i: nat)
    requires CanRemove(g, nodes, n, i)
    ensures Ok(Removed(g, n, i), nodes)
  {
    var g' := Removed(g, n, i);
    forall m | m in nodes ensures ListOk(g', nodes, m) {
      if m == n { RemovedHere(g, nodes, n, i); } else { RemovedElsewhere(g, nodes, n, i, m); }
    }
    forall d | d in nodes ensures LinkOk(g', nodes, d) { RemovedLink(g, nodes, n, i, d); }
  }

  lemma InsertedSeq(kids: seq<Node>, c: Node, i: nat)
    requires i <= |kids|
    ensures var kids' := kids[..i] + [c] + kids[i..];
      |kids'| == |kids| + 1 && kids'[i] == c && kids'[..i] + kids'[i + 1..] == kids
      && At(kids', i - 1) == At(kids, i - 1) && At(kids', i + 1) == At(kids, i)
  {
  }

  /** What the neighbours of a place point to, and what a free node does. */
  ghost predicate Around(g: Graph, n: Node, c: Node, p: Node?, q: Node?) {
    && c in g.parents && g.parents[c] == null && c != p && c != q
    && c in g.prevs && g.prevs[c] == null && c in g.nexts && g.nexts[c] == null
    && (q != null ==> q in g.prevs && g.prevs[q] == p) && (p != null ==> p in g.nexts && g.nexts[p] == q)
    && n in g.firsts && n in g.lasts && n in g.lists
    && (p == null ==> g.firsts[n] == q) && (q == null ==> g.lasts[n] == p)
  }

  lemma AroundPlace(g: Graph, nodes: set<Node>, n: Node, c: Node, i: nat)
    requires CanInsert(g, nodes, n, c, i)
    requires g.parents.Keys == g.firsts.Keys == g.lasts.Keys == g.prevs.Keys == g.nexts.Keys == g.lists.Keys == nodes
    ensures Around(g, n, c, At(g.Kids(n), i - 1), At(g.Kids(n), i))
  {
    assert LinkOk(g, nodes, c) && ListOk(g, nodes, n);
    if i > 0 { ListedOnce(g, nodes, n, i - 1); }
    if i < |g.Kids(n)| { ListedOnce(g, nodes, n, i); }
  }

  /** Removing what was inserted restores every pointer of every node. */
  lemma RemoveUndoesInsert(g: Graph, nodes: set<Node>, n: Node, c: Node, i: nat)
    requires CanInsert(g, nodes, n, c, i)
    requires g.parents.Keys == g.firsts.Keys == g.lasts.Keys == g.prevs.Keys == g.nexts.Keys == g.lists.Keys == nodes
    ensures i < |Inserted(g, n, c, i).Kids(n)| && Removed(Inserted(g, n, c, i), n, i) == g
  {
    AroundPlace(g, nodes, n, c, i);
    UndoAround(g, n, c, i);
  }

  lemma UndoAround(g: Graph, n: Node, c: Node, i: nat)
    requires i <= |g.Kids(n)| && Around(g, n, c, At(g.Kids(n), i - 1), At(g.Kids(n), i))
    ensures i < |Inserted(g, n, c, i).Kids(n)| && Removed(Inserted(g, n, c, i), n, i) == g
  {
    var kids := g.Kids(n);
    var p, q := At(kids, i - 1), At(kids, i);
    InsertedSeq(kids, c, i);
    SetBack(g.prevs, q, p, c, p);
    SetBack(g.nexts, p, q, c, q);
    EndsBack(g, n, c, p, q, kids[..i] + [c] + kids[i..]);
  }

  /** A pointer that is set, and a node's own, both put back. */
  lemma SetBack(m: map<Node, Node?>, x: Node?, was: Node?, c: Node, own: Node?)
    requires c in m && m[c] == null && c != x && (x != null ==> x in m && m[x] == was)
    ensures Set(Set(m, x, c)[c := own], x, was)[c := null] == m
  {
  }

  lemma EndsBack(g: Graph, n: Node, c: Node, p: Node?, q: Node?, v: seq<Node>)
    requires c in g.parents && g.parents[c] == null && n in g.firsts && n in g.lasts && n in g.lists
    requires (p == null ==> g.firsts[n] == q) && (q == null ==> g.lasts[n] == p)
    ensures g.parents[c := n][c := null] == g.parents
    ensures g.lists[n := v][n := g.Kids(n)] == g.lists
    ensures p == null ==> g.firsts[n := c][n := q] == g.firsts
    ensures q == null ==> g.lasts[n := c][n := p] == g.lasts
  {
  }

  // ---------------------------------------------------------------- the operations

  // The pointers of one of these nodes; nothing is said of any other.

  ghost function ParentIn(nodes: set<Node>, n: Node): Node?
    reads nodes`parent
  {
    if n in nodes then n.parent else null
  }

  ghost function FirstIn(nodes: set<Node>, n: Node): Node?
    reads nodes`firstChild
  {
    if n in nodes then n.firstChild else null
  }

  ghost function LastIn(nodes: set<Node>, n: Node): Node?
    reads nodes`lastChild
  {
    if n in nodes then n.lastChild else null
  }

  ghost function PrevIn(nodes: set<Node>, n: Node): Node?
    reads nodes`prevSibling
  {
    if n in nodes then n.prevSibling else null
  }

  ghost function NextIn(nodes: set<Node>, n: Node): Node?
    reads nodes`nextSibling
  {
    if n in nodes then n.nextSibling else null
  }

  ghost function ListIn(nodes: set<Node>, n: Node): seq<Node>
    reads nodes`children
  {
    if n in nodes then n.children else []
  }

  // The nodes' pointers as they stand.

  ghost function Parents(nodes: set<Node>): map<Node, Node?>
    reads nodes`parent
  {
    map n | n in nodes :: ParentIn(nodes, n)
  }

  ghost function Firsts(nodes: set<Node>): map<Node, Node?>
    reads nodes`firstChild
  {
    map n | n in nodes :: FirstIn(nodes, n)
  }

  ghost function Lasts(nodes: set<Node>): map<Node, Node?>
    reads nodes`lastChild
  {
    map n | n in nodes :: LastIn(nodes, n)
  }

  ghost function Prevs(nodes: set<Node>): map<Node, Node?>
    reads nodes`prevSibling
  {
    map n | n in nodes :: PrevIn(nodes, n)
  }

  ghost function Nexts(nodes: set<Node>): map<Node, Node?>
    reads nodes`nextSibling
  {
    map n | n in nodes :: NextIn(nodes, n)
  }

  ghost function Lists(nodes: set<Node>): map<Node, seq<Node>>
    reads nodes`children
  {
    map n | n in nodes :: ListIn(nodes, n)
  }

  ghost function Snap(nodes: set<Node>): Graph
    reads nodes
  {
    Graph(Parents(nodes), Firsts(nodes), Lasts(nodes), Prevs(nodes), Nexts(nodes), Lists(nodes))
  }

  /** All pointers of a set of nodes are consistent. */
  ghost predicate Valid(nodes: set<Node>)
    reads nodes
  {
    Ok(Snap(nodes), nodes)
  }

  ghost predicate Attached(c: Node) reads c {
    c.parent != null || c.prevSibling != null || c.nextSibling != null
  }

  /** A child stands somewhere in its parent's sequence. */
  lemma FindChild(nodes: set<Node>, n: Node, c: Node) returns (i: nat)
    requires Valid(nodes) && n in nodes && c in nodes && c.parent == n
    ensures i < |n.children| && n.children[i] == c && ChildOk(Snap(nodes), nodes, n, i) && ListOk(Snap(nodes), nodes, n)
  {
    var g := Snap(nodes);
    assert LinkOk(g, nodes, c) && ListOk(g, nodes, n);
    i :| IsAt(g.Kids(n), i, c);
    assert ChildOk(g, nodes, n, i);
  }

  // One pointer of one node.

  method SetParent(n: Node, v: Node?, ghost nodes: set<Node>)
    requires n in nodes
    modifies n`parent
    ensures Snap(nodes) == old(Snap(nodes)).(parents := old(Parents(nodes))[n := v])
  {
    hide Firsts, Lasts, Prevs, Nexts, Lists;
    n.parent := v;
    assert Parents(nodes) == old(Parents(nodes))[n := v];
  }

  method SetFirst(n: Node, v: Node?, ghost nodes: set<Node>)
    requires n in nodes
    modifies n`firstChild
    ensures Snap(nodes) == old(Snap(nodes)).(firsts := old(Firsts(nodes))[n := v])
  {
    hide Parents, Lasts, Prevs, Nexts, Lists;
    n.firstChild := v;
    assert Firsts(nodes) == old(Firsts(nodes))[n := v];
  }

  method SetLast(n: Node, v: Node?, ghost nodes: set<Node>)
    requires n in nodes
    modifies n`lastChild
    ensures Snap(nodes) == old(Snap(nodes)).(lasts := old(Lasts(nodes))[n := v])
  {
    hide Parents, Firsts, Prevs, Nexts, Lists;
    n.lastChild := v;
    assert Lasts(nodes) == old(Lasts(nodes))[n := v];
  }

  method SetPrev(n: Node, v: Node?, ghost nodes: set<Node>)
    requires n in nodes
    modifies n`prevSibling
    ensures Snap(nodes) == old(Snap(nodes)).(prevs := old(Prevs(nodes))[n := v])
  {
    hide Parents, Firsts, Lasts, Nexts, Lists;
    n.prevSibling := v;
    assert Prevs(nodes) == old(Prevs(nodes))[n := v];
  }

  method SetNext(n: Node, v: Node?, ghost nodes: set<Node>)
    requires n in nodes
    modifies n`nextSibling
    ensures Snap(nodes) == old(Snap(nodes)).(nexts := old(Nexts(nodes))[n := v])
  {
    hide Parents, Firsts, Lasts, Prevs, Lists;
    n.nextSibling := v;
    assert Nexts(nodes) == old(Nexts(nodes))[n := v];
  }

  ghost method SetChildren(n: Node, v: seq<Node>, nodes: set<Node>)
    requires n in nodes
    modifies n`children
    ensures Snap(nodes) == old(Snap(nodes)).(lists := old(Lists(nodes))[n := v])
  {
    hide Parents, Firsts, Lasts, Prevs, Nexts;
    n.children := v;
    assert Lists(nodes) == old(Lists(nodes))[n := v];
  }

  /** InsertBefore's assignments. */
  method Link(n: Node, c: Node, prev: Node?, next: Node?, ghost i: nat, ghost nodes: set<Node>)
    requires n in nodes && c in nodes && (prev != null ==> prev in nodes) && (next != null ==> next in nodes)
    requires i <= |n.children| && prev == At(n.children, i - 1) && next == At(n.children, i)
    modifies nodes
    ensures Snap(nodes) == Inserted(old(Snap(nodes)), n, c, i)
  {
    if prev != null { SetNext(prev, c, nodes); } else { SetFirst(n, c, nodes); }
    if next != null { SetPrev(next, c, nodes); } else { SetLast(n, c, nodes); }
    SetParent(c, n, nodes);
    SetPrev(c, prev, nodes);
    SetNext(c, next, nodes);
    SetChildren(n, n.children[..i] + [c] + n.children[i..], nodes);
  }

  /** InsertBefore: n's children with the new one before the old one, or at the end; it panics, and
      changes nothing, when the new child is attached. */
  method InsertBefore(n: Node, newChild: Node, oldChild: Node?, ghost nodes: set<Node>)
    returns (panicked: bool, ghost i: nat)
    requires Valid(nodes) && n in nodes && newChild in nodes
    requires oldChild != null ==> oldChild in nodes && oldChild.parent == n
    modifies nodes
    ensures Valid(nodes) && panicked == old(Attached(newChild))
    ensures panicked ==> Snap(nodes) == old(Snap(nodes))
    ensures !panicked ==> i <= |old(n.children)| && At(old(n.children), i) == oldChild
    ensures !panicked ==> Snap(nodes) == Inserted(old(Snap(nodes)), n, newChild, i)
    ensures !panicked ==> n.children == old(n.children)[..i] + [newChild] + old(n.children)[i..]
  {
    i := 0;
    if newChild.parent != null || newChild.prevSibling != null || newChild.nextSibling != null { return true, 0; }
    var prev: Node?, next: Node? := null, null;
    if oldChild != null {
      i := FindChild(nodes, n, oldChild);
      if i > 0 { ListedOnce(Snap(nodes), nodes, n, i - 1); }
      prev, next := oldChild.prevSibling, oldChild;
    } else {
      LastChild(nodes, n);
      i := |n.children|;
      prev := n.lastChild;
    }
    InsertedOk(Snap(nodes), nodes, n, newChild, i);
    Link(n, newChild, prev, next, i, nodes);
    panicked := false;
  }

  lemma LastChild(nodes: set<Node>, n: Node)
    requires Valid(nodes) && n in nodes
    ensures n.lastChild == At(n.children, |n.children| - 1) && n.firstChild == At(n.children, 0)
    ensures n.lastChild != null ==> n.lastChild in nodes
    ensures n.firstChild != null ==> n.firstChild in nodes
  {
    var g := Snap(nodes);
    assert ListOk(g, nodes, n);
    if n.children != [] {
      assert ChildOk(g, nodes, n, |n.children| - 1);
      assert ChildOk(g, nodes, n, 0);
    }
  }

  lemma InsertedLast(g: Graph, n: Node, c: Node)
    ensures Inserted(g, n, c, |g.Kids(n)|).lists == g.lists[n := g.Kids(n) + [c]]
  {
    var kids := g.Kids(n);
    assert kids[..|kids|] + [c] + kids[|kids|..] == kids + [c];
  }

  /** AppendChild. */
  method AppendChild(n: Node, c: Node, ghost nodes: set<Node>) returns (panicked: bool)
    requires Valid(nodes) && n in nodes && c in nodes
    modifies nodes
    ensures Valid(nodes) && panicked == old(Attached(c))
    ensures panicked ==> Snap(nodes) == old(Snap(nodes))
    ensures !panicked ==> Snap(nodes) == Inserted(old(Snap(nodes)), n, c, |old(n.children)|)
    ensures !panicked ==> n.children == old(n.children) + [c]
  {
    if c.parent != null || c.prevSibling != null || c.nextSibling != null { return true; }
    var last := n.lastChild;
    LastChild(nodes, n);
    ghost var i := |n.children|;
    if i > 0 { ListedOnce(Snap(nodes), nodes, n, i - 1); }
    ghost var g := Snap(nodes);
    InsertedOk(g, nodes, n, c, i);
    InsertedLast(g, n, c);
    LinkLast(n, c, last, nodes);
    assert n.children == Snap(nodes).lists[n];
    panicked := false;
  }

  /** AppendChild's assignments; the child's next sibling is already null. */
  method LinkLast(n: Node, c: Node, last: Node?, ghost nodes: set<Node>)
    requires n in nodes && c in nodes && (last != null ==> last in nodes) && c.nextSibling == null && c != last
    requires last == At(n.children, |n.children| - 1)
    modifies nodes
    ensures Snap(nodes) == Inserted(old(Snap(nodes)), n, c, |old(n.children)|)
  {
    ghost var g := Snap(nodes);
    InsertedAtEnd(g, n, c);
    if last != null { SetNext(last, c, nodes); } else { SetFirst(n, c, nodes); }
    SetLast(n, c, nodes);
    AdoptLast(n, c, last, nodes);
  }

  method AdoptLast(n: Node, c: Node, last: Node?, ghost nodes: set<Node>)
    requires n in nodes && c in nodes
    modifies c`parent, c`prevSibling, n`children
    ensures Snap(nodes) == old(Snap(nodes)).(parents := old(Parents(nodes))[c := n],
      prevs := old(Prevs(nodes))[c := last], lists := old(Lists(nodes))[n := old(n.children) + [c]])
  {
    hide Parents, Firsts, Lasts, Prevs, Nexts, Lists;
    SetParent(c, n, nodes);
    SetPrev(c, last, nodes);
    SetChildren(n, n.children + [c], nodes);
  }

  /** At the end of a list only the last child's next pointer changes. */
  lemma InsertedAtEnd(g: Graph, n: Node, c: Node)
    requires var last := At(g.Kids(n), |g.Kids(n)| - 1); c != last && c in g.nexts && g.nexts[c] == null
    ensures var kids := g.Kids(n);
      var last := At(kids, |kids| - 1);
      Inserted(g, n, c, |kids|) == Graph(g.parents[c := n], if last == null then g.firsts[n := c] else g.firsts,
        g.lasts[n := c], g.prevs[c := last], Set(g.nexts, last, c), g.lists[n := kids + [c]])
  {
    InsertedLast(g, n, c);
    var nexts := Set(g.nexts, At(g.Kids(n), |g.Kids(n)| - 1), c);
    assert nexts[c := null] == nexts;
  }

  /** RemoveChild's assignments. */
  method Unlink(n: Node, c: Node, ghost i: nat, ghost nodes: set<Node>)
    requires Valid(nodes) && n in nodes && c in nodes && i < |n.children| && n.children[i] == c
    modifies nodes
    ensures Snap(nodes) == Removed(old(Snap(nodes)), n, i)
  {
    Neighbours(nodes, n, i);
    var prev, next := c.prevSibling, c.nextSibling;
    if n.firstChild == c { SetFirst(n, next, nodes); }
    if next != null { SetPrev(next, prev, nodes); }
    if n.lastChild == c { SetLast(n, prev, nodes); }
    if prev != null { SetNext(prev, next, nodes); }
    SetParent(c, null, nodes);
    SetPrev(c, null, nodes);
    SetNext(c, null, nodes);
    SetChildren(n, n.children[..i] + n.children[i + 1..], nodes);
  }

  /** A child's siblings, and when it is the first or the last. */
  lemma Neighbours(nodes: set<Node>, n: Node, i: nat)
    requires Valid(nodes) && n in nodes && i < |n.children|
    ensures var c, p, q := n.children[i], At(n.children, i - 1), At(n.children, i + 1);
      c in nodes && c.prevSibling == p && c.nextSibling == q && (p != null ==> p in nodes) && (q != null ==> q in nodes)
      && (n.firstChild == c <==> p == null) && (n.lastChild == c <==> q == null)
  {
    var g := Snap(nodes);
    LastChild(nodes, n);
    ListedOnce(g, nodes, n, i);
    if i > 0 { ListedOnce(g, nodes, n, i - 1); }
    if i + 1 < |n.children| { ListedOnce(g, nodes, n, i + 1); }
  }

  /** RemoveChild: the child leaves its parent's sequence, and is nobody's child or sibling. */
  method RemoveChild(n: Node, c: Node, ghost nodes: set<Node>) returns (panicked: bool, ghost i: nat)
    requires Valid(nodes) && n in nodes && c in nodes
    modifies nodes
    ensures Valid(nodes) && panicked == (old(c.parent) != n)
    ensures panicked ==> Snap(nodes) == old(Snap(nodes))
    ensures !panicked ==> !Attached(c) && IsAt(old(n.children), i, c) && Snap(nodes) == Removed(old(Snap(nodes)), n, i)
  {
    i := 0;
    if c.parent != n { return true, 0; }
    i := FindChild(nodes, n, c);
    Detach(n, c, i, nodes);
    panicked := false;
  }

  /** RemoveChild for a child that stands at place i. */
  method Detach(n: Node, c: Node, ghost i: nat, ghost nodes: set<Node>)
    requires Valid(nodes) && n in nodes && c in nodes && i < |n.children| && n.children[i] == c
    modifies nodes
    ensures Valid(nodes) && !Attached(c) && Snap(nodes) == Removed(old(Snap(nodes)), n, i)
  {
    ghost var g := Snap(nodes);
    RemovedOk(g, nodes, n, i);
    Unlink(n, c, i, nodes);
    Unattached(nodes, c);
  }

  lemma Unattached(nodes: set<Node>, c: Node)
    requires Valid(nodes) && c in nodes && Of(Snap(nodes).parents, c) == null
    ensures !Attached(c)
  {
    assert LinkOk(Snap(nodes), nodes, c);
  }

  /** A first child that has moved to the end of another list. */
  lemma MovedFirst(g: Graph, src: Node, dst: Node)
    requires src in g.lists && dst in g.lists && src != dst && g.lists[src] != []
    ensures var h := Removed(g, src, 0);
      var left := g.lists[src := g.lists[src][1..]];
      Inserted(h, dst, g.lists[src][0], |h.Kids(dst)|).lists == left[dst := g.lists[dst] + [g.lists[src][0]]]
  {
    var h := Removed(g, src, 0);
    assert g.lists[src][..0] + g.lists[src][1..] == g.lists[src][1..];
    InsertedLast(h, dst, g.lists[src][0]);
  }

  /** One turn of reparentChildren. */
  method MoveFirst(dst: Node, src: Node, child: Node, ghost nodes: set<Node>)
    requires Valid(nodes) && dst in nodes && src in nodes && dst != src && child in nodes
    requires src.children != [] && child == src.children[0]
    modifies nodes
    ensures Valid(nodes)
    ensures var left := old(Lists(nodes))[src := old(src.children)[1..]];
      Lists(nodes) == left[dst := old(dst.children) + [child]]
  {
    ghost var g := Snap(nodes);
    ListedOnce(g, nodes, src, 0);
    MovedFirst(g, src, dst);
    ghost var i;
    var panicked;
    panicked, i := RemoveChild(src, child, nodes);
    assert i == 0;
    panicked := AppendChild(dst, child, nodes);
  }

  /** reparentChildren: it ends, with all of src's children behind dst's own, in order, and nobody
      else's children touched. */
  method ReparentChildren(dst: Node, src: Node, ghost nodes: set<Node>)
    requires Valid(nodes) && dst in nodes && src in nodes && dst != src
    modifies nodes
    ensures Valid(nodes) && src.children == [] && dst.children == old(dst.children) + old(src.children)
    ensures forall m :: m in nodes && m != dst && m != src ==> m.children == old(m.children)
  {
    hide Ok, Snap;
    ghost var moved: nat := 0;
    ghost var lists := Lists(nodes);
    MovedNone(lists, dst, src);
    while true
      invariant Valid(nodes) && moved <= |old(src.children)|
      invariant Lists(nodes) == Moved(lists, dst, src, moved)
      decreases |old(src.children)| - moved
    {
      LastChild(nodes, src);
      assert src.children == Lists(nodes)[src] == lists[src][moved..];
      var child := src.firstChild;
      if child == null { break; }
      MoveNext(dst, src, child, moved, lists, nodes);
      moved := moved + 1;
    }
    AllMoved(lists, dst, src, nodes);
  }

  /** One more turn, counted from the start. */
  method MoveNext(dst: Node, src: Node, child: Node, ghost n: nat, ghost lists: map<Node, seq<Node>>,
                  ghost nodes: set<Node>)
    requires Valid(nodes) && dst in nodes && src in nodes && dst != src && child in nodes
    requires dst in lists && src in lists && n < |lists[src]| && Lists(nodes) == Moved(lists, dst, src, n)
    requires src.children != [] && child == src.children[0]
    modifies nodes
    ensures Valid(nodes) && Lists(nodes) == Moved(lists, dst, src, n + 1)
  {
    assert src.children == Lists(nodes)[src] && dst.children == Lists(nodes)[dst];
    MovedMore(lists, dst, src, n);
    MoveFirst(dst, src, child, nodes);
  }

  lemma AllMoved(lists: map<Node, seq<Node>>, dst: Node, src: Node, nodes: set<Node>)
    requires dst in nodes && src in nodes && dst != src && lists.Keys == nodes
    requires Lists(nodes) == Moved(lists, dst, src, |lists[src]|)
    ensures src.children == [] && dst.children == lists[dst] + lists[src]
    ensures forall x :: x in nodes && x != dst && x != src ==> x.children == lists[x]
  {
    assert lists[src][..|lists[src]|] == lists[src];
    forall x | x in nodes ensures x.children == Lists(nodes)[x] {}
  }

  /** The lists when so many of src's children have moved to dst. */
  ghost function Moved(lists: map<Node, seq<Node>>, dst: Node, src: Node, n: nat): map<Node, seq<Node>>
    requires dst in lists && src in lists && n <= |lists[src]|
  {
    var left := lists[src := lists[src][n..]];
    left[dst := lists[dst] + lists[src][..n]]
  }

  lemma MovedNone(lists: map<Node, seq<Node>>, dst: Node, src: Node)
    requires dst in lists && src in lists
    ensures Moved(lists, dst, src, 0) == lists
  {
    assert lists[src][0..] == lists[src] && lists[dst] + lists[src][..0] == lists[dst];
  }

  lemma MovedMore(lists: map<Node, seq<Node>>, dst: Node, src: Node, n: nat)
    requires dst in lists && src in lists && src != dst && n < |lists[src]|
    ensures var m := Moved(lists, dst, src, n); src in m && dst in m && m[src] != []
    ensures var m := Moved(lists, dst, src, n);
      var left := m[src := m[src][1..]];
      left[dst := m[dst] + [m[src][0]]] == Moved(lists, dst, src, n + 1)
  {
    var s := lists[src];
    var m, m' := Moved(lists, dst, src, n), Moved(lists, dst, src, n + 1);
    assert s[n..][1..] == s[n + 1..] && s[n..][0] == s[n];
    assert lists[dst] + s[..n] + [s[n]] == lists[dst] + s[..n + 1];
    var left := m[src := m[src][1..]];
    assert left[dst := m[dst] + [m[src][0]]] == m';
  }

  /** Following the next siblings from the first child visits the children, in order. */
  method Walk(n: Node, ghost nodes: set<Node>) returns (kids: seq<Node>)
    requires Valid(nodes) && n in nodes
    ensures kids == n.children
  {
    kids := [];
    LastChild(nodes, n);
    var c := n.firstChild;
    while c != null
      invariant |kids| <= |n.children| && kids == n.children[..|kids|] && c == At(n.children, |kids|)
      decreases |n.children| - |kids|
    {
      Neighbours(nodes, n, |kids|);
      kids := kids + [c];
      c := c.nextSibling;
    }
  }

  // ---------------------------------------------------------------- runs

  /** Calls of the operations; numbers say which of the nodes made so far are meant. */
  datatype Op =
    | Make
    | Insert(n: nat, c: nat, before: nat)
    | Append(n: nat, c: nat)
    | Remove(n: nat, c: nat)
    | Reparent(dst: nat, src: nat)

  ghost function NodesOf(made: seq<Node>): set<Node> { set n | n in made }

  /** Pointers of a set of nodes that have not changed while another node came to them. */
  ghost predicate Same(g: Graph, g': Graph, nodes: set<Node>) {
    forall n :: n in nodes ==>
      && Of(g'.parents, n) == Of(g.parents, n)
      && Of(g'.firsts, n) == Of(g.firsts, n) && Of(g'.lasts, n) == Of(g.lasts, n)
      && Of(g'.prevs, n) == Of(g.prevs, n) && Of(g'.nexts, n) == Of(g.nexts, n) && g'.Kids(n) == g.Kids(n)
  }

  lemma StillOk(g: Graph, g': Graph, nodes: set<Node>, all: set<Node>, n: Node)
    requires Same(g, g', nodes) && nodes <= all && n in nodes && Ok(g, nodes)
    ensures ListOk(g', all, n) && LinkOk(g', all, n)
  {
    assert ListOk(g, nodes, n) && LinkOk(g, nodes, n);
    forall i: nat | i < |g.Kids(n)| ensures ChildOk(g', all, n, i) { assert ChildOk(g, nodes, n, i); }
  }

  lemma SameBeside(nodes: set<Node>, c: Node)
    requires c !in nodes
    ensures Same(Snap(nodes), Snap(nodes + {c}), nodes)
  {
  }

  lemma AloneOk(nodes: set<Node>, c: Node)
    requires c in nodes && !Attached(c) && c.firstChild == null && c.lastChild == null && c.children == []
    ensures ListOk(Snap(nodes), nodes, c) && LinkOk(Snap(nodes), nodes, c)
  {
    assert Snap(nodes).Kids(c) == [];
  }

  /** A new node beside others. */
  lemma BesideOk(nodes: set<Node>, c: Node)
    requires Valid(nodes) && c !in nodes && !Attached(c) && c.firstChild == null && c.lastChild == null
    requires c.children == []
    ensures Valid(nodes + {c})
  {
    hide Same, Snap, ListOk, LinkOk;
    SameBeside(nodes, c);
    AloneOk(nodes + {c}, c);
    forall n | n in nodes
      ensures ListOk(Snap(nodes + {c}), nodes + {c}, n) && LinkOk(Snap(nodes + {c}), nodes + {c}, n)
    {
      StillOk(Snap(nodes), Snap(nodes + {c}), nodes, nodes + {c}, n);
    }
  }

  method Step(op: Op, made: seq<Node>) returns (made': seq<Node>)
    requires Valid(NodesOf(made))
    modifies NodesOf(made)
    ensures Valid(NodesOf(made')) && made <= made' && fresh(NodesOf(made') - NodesOf(made))
  {
    ghost var nodes := NodesOf(made);
    made' := made;
    match op
    case Make =>
      var c := new Node();
      BesideOk(nodes, c);
      made' := made + [c];
      assert NodesOf(made') == nodes + {c};
    case Insert(n, c, before) =>
      if n < |made| && c < |made| && (before < |made| ==> made[before].parent == made[n]) {
        var panicked, i := InsertBefore(made[n], made[c], if before < |made| then made[before] else null, nodes);
      }
    case Append(n, c) =>
      if n < |made| && c < |made| { var panicked := AppendChild(made[n], made[c], nodes); }
    case Remove(n, c) =>
      if n < |made| && c < |made| { var panicked, i := RemoveChild(made[n], made[c], nodes); }
    case Reparent(dst, src) =>
      if dst < |made| && src < |made| && made[dst] != made[src] { ReparentChildren(made[dst], made[src], nodes); }
  }

  /** Whatever is done, starting from nothing, all pointers agree with the sequences of children. */
  method Run(ops: seq<Op>) returns (made: seq<Node>)
    ensures Valid(NodesOf(made)) && fresh(NodesOf(made))
  {
    made := [];
    for i := 0 to |ops|
      invariant Valid(NodesOf(made)) && fresh(NodesOf(made))
    {
      made := Step(ops[i], made);
    }
  }
}
