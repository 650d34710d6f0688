/** libuv's intrusive binary min-heap: nodes linked by left, right and parent
    pointers, found by the bits of the node count. */
module Heap {
  import opened Sequences

  class Node<T> {
    var left: Node?<T>
    var right: Node?<T>
    var parent: Node?<T>
    var data: T  // the structure the node is embedded in

    constructor (data: T)
      ensures this.data == data
    {
      this.data := data;
      left, right, parent := null, null, null;
    }
  }

  // ---------- Links as values ----------

  datatype Links<T> = Links(left: Node?<T>, right: Node?<T>, parent: Node?<T>)

  ghost predicate HasAt<T>(s: seq<Node<T>>, e: seq<Links<T>>, i: nat)
    requires i < |s| == |e|
    reads s`left, s`right, s`parent
  {
    s[i].left == e[i].left && s[i].right == e[i].right && s[i].parent == e[i].parent
  }

  /** The nodes of s carry the links e. */
  ghost predicate Has<T>(s: seq<Node<T>>, e: seq<Links<T>>)
    reads s`left, s`right, s`parent
  {
    |s| == |e| && Distinct(s) && forall i: nat :: i < |s| ==> HasAt(s, e, i)
  }

  ghost function At<T>(s: seq<Node<T>>, k: nat): Node?<T> {
    if k < |s| then s[k] else null
  }

  /** The links that belong in slot i of a complete binary tree, the slots being
      counted from 0 along the levels. */
  ghost function Belongs<T>(s: seq<Node<T>>, i: nat): Links<T>
    requires i < |s|
  {
    Links(At(s, 2 * i + 1), At(s, 2 * i + 2), if i == 0 then null else s[(i - 1) / 2])
  }

  ghost function Tree<T>(s: seq<Node<T>>): (e: seq<Links<T>>)
    ensures |e| == |s|
  {
    seq(|s|, i requires 0 <= i < |s| => Belongs(s, i))
  }

  /** s is a complete binary tree, linked consistently. */
  ghost predicate Linked<T>(s: seq<Node<T>>)
    reads s`left, s`right, s`parent
  {
    Has(s, Tree(s))
  }

  lemma LinksAt<T>(s: seq<Node<T>>, i: nat)
    requires Linked(s) && i < |s|
    ensures s[i].left == At(s, 2 * i + 1) && s[i].right == At(s, 2 * i + 2)
    ensures s[i].parent == if i == 0 then null else s[(i - 1) / 2]
  {
    assert HasAt(s, Tree(s), i);
  }

  lemma ChildrenApart<T>(s: seq<Node<T>>, x: nat)
    requires Linked(s) && x < |s|
    ensures 2 * x + 1 < |s| ==> s[2 * x + 1] != s[x]
    ensures 2 * x + 2 < |s| ==> s[2 * x + 2] != s[x] && s[2 * x + 1] != s[2 * x + 2]
  {
  }

  ghost function WithParent<T>(e: seq<Links<T>>, k: nat, v: Node?<T>): seq<Links<T>> {
    if k < |e| then e[k := e[k].(parent := v)] else e
  }

  ghost function WithChild<T>(e: seq<Links<T>>, k: nat, right: bool, v: Node?<T>): seq<Links<T>> {
    if k >= |e| then e else if right then e[k := e[k].(right := v)] else e[k := e[k].(left := v)]
  }

  /** Writing one link of one node. */
  method SetParent<T>(x: Node?<T>, v: Node?<T>, ghost s: seq<Node<T>>, ghost e: seq<Links<T>>, ghost k: nat)
    requires Has(s, e) && x == At(s, k)
    modifies s`parent
    ensures Has(s, WithParent(e, k, v))
  {
    if x != null {
      x.parent := v;
      forall i: nat | i < |s| ensures HasAt(s, WithParent(e, k, v), i) {
        assert old(HasAt(s, e, i));
      }
    }
  }

  method SetChild<T>(x: Node<T>, right: bool, v: Node?<T>, ghost s: seq<Node<T>>, ghost e: seq<Links<T>>, ghost k: nat)
    requires Has(s, e) && k < |s| && x == s[k]
    modifies s`left, s`right
    ensures Has(s, WithChild(e, k, right, v))
  {
    if right {
      x.right := v;
    } else {
      x.left := v;
    }
    forall i: nat | i < |s| ensures HasAt(s, WithChild(e, k, right, v), i) {
      assert old(HasAt(s, e, i));
    }
  }

  /** Two structures exchange their links. */
  method Exchange<T>(a: Node<T>, b: Node<T>, ghost s: seq<Node<T>>, ghost e: seq<Links<T>>, ghost i: nat, ghost j: nat)
    requires Has(s, e) && i < |s| && j < |s| && a == s[i] && b == s[j]
    modifies s`left, s`right, s`parent
    ensures Has(s, e[i := e[j]][j := e[i]])
  {
    assert HasAt(s, e, i) && HasAt(s, e, j);
    var tl, tr, tp := a.left, a.right, a.parent;
    a.left, a.right, a.parent := b.left, b.right, b.parent;
    b.left, b.right, b.parent := tl, tr, tp;
    ghost var e' := e[i := e[j]][j := e[i]];
    forall k: nat | k < |s| ensures HasAt(s, e', k) {
      assert old(HasAt(s, e, k));
    }
  }

  // ---------- Swapping a parent with its child ----------

  ghost function Swapped<A>(s: seq<A>, i: nat, j: nat): seq<A>
    requires i < |s| && j < |s|
  {
    s[i := s[j]][j := s[i]]
  }

  lemma SwappedKeeps<A>(s: seq<A>, i: nat, j: nat)
    requires i < |s| && j < |s|
    ensures Same(Swapped(s, i, j), s)
  {
    var t := Swapped(s, i, j);
    forall k | 0 <= k < |s| ensures s[k] in t {
      assert s[k] == t[if k == i then j else if k == j then i else k];
    }
  }

  /** Same elements, as far as membership goes, and as many slots. */
  ghost predicate Same<A>(s: seq<A>, t: seq<A>) {
    && |s| == |t|
    && (forall i :: 0 <= i < |s| ==> s[i] in t)
    && (forall i :: 0 <= i < |t| ==> t[i] in s)
  }

  ghost predicate ParentAndChild(p: nat, c: nat) {
    c == 2 * p + 1 || c == 2 * p + 2
  }

  /** The links of slot i after the first `steps` writes of heap_node_swap that
      follow the exchange. */
  ghost function Rewired<T>(s: seq<Node<T>>, p: nat, c: nat, steps: nat, i: nat): Links<T>
    requires p < |s| && c < |s| && i < |s|
  {
    var was := Belongs(s, if i == p then c else if i == c then p else i);
    Links(
      if steps >= 2 && i == c && c == 2 * p + 1 then s[p]
      else if steps >= 6 && p == 2 * i + 1 then s[c]
      else was.left,
      if steps >= 2 && i == c && c == 2 * p + 2 then s[p]
      else if steps >= 6 && p == 2 * i + 2 then s[c]
      else was.right,
      if steps >= 1 && i == p then s[c]
      else if steps >= 3 && i == 4 * p + 3 - c then s[c]
      else if steps >= 4 && i == 2 * c + 1 then s[p]
      else if steps >= 5 && i == 2 * c + 2 then s[p]
      else was.parent)
  }

  ghost function Rewiring<T>(s: seq<Node<T>>, p: nat, c: nat, steps: nat): (e: seq<Links<T>>)
    requires p < |s| && c < |s|
    ensures |e| == |s|
  {
    seq(|s|, i requires 0 <= i < |s| => Rewired(s, p, c, steps, i))
  }

  lemma RewiringStarts<T>(s: seq<Node<T>>, p: nat, c: nat)
    requires p < c < |s|
    ensures Tree(s)[p := Tree(s)[c]][c := Tree(s)[p]] == Rewiring(s, p, c, 0)
  {
  }

  lemma RewiringStep1<T>(s: seq<Node<T>>, p: nat, c: nat)
    requires p < c < |s| && ParentAndChild(p, c)
    ensures WithParent(Rewiring(s, p, c, 0), p, s[c]) == Rewiring(s, p, c, 1)
  {
    var e, e' := Rewiring(s, p, c, 0), Rewiring(s, p, c, 1);
    forall i: nat | i < |s| ensures WithParent(e, p, s[c])[i] == e'[i] {
      assert e[i] == Rewired(s, p, c, 0, i) && e'[i] == Rewired(s, p, c, 1, i);
    }
  }

  lemma RewiringStep2<T>(s: seq<Node<T>>, p: nat, c: nat)
    requires p < c < |s| && ParentAndChild(p, c)
    ensures WithChild(Rewiring(s, p, c, 1), c, c == 2 * p + 2, s[p]) == Rewiring(s, p, c, 2)
  {
    var e, e' := Rewiring(s, p, c, 1), Rewiring(s, p, c, 2);
    forall i: nat | i < |s| ensures WithChild(e, c, c == 2 * p + 2, s[p])[i] == e'[i] {
      assert e[i] == Rewired(s, p, c, 1, i) && e'[i] == Rewired(s, p, c, 2, i);
    }
  }

  lemma RewiringStep3<T>(s: seq<Node<T>>, p: nat, c: nat)
    requires p < c < |s| && ParentAndChild(p, c)
    ensures WithParent(Rewiring(s, p, c, 2), 4 * p + 3 - c, s[c]) == Rewiring(s, p, c, 3)
  {
    var e, e' := Rewiring(s, p, c, 2), Rewiring(s, p, c, 3);
    forall i: nat | i < |s| ensures WithParent(e, 4 * p + 3 - c, s[c])[i] == e'[i] {
      assert e[i] == Rewired(s, p, c, 2, i) && e'[i] == Rewired(s, p, c, 3, i);
    }
  }

  lemma RewiringStep4<T>(s: seq<Node<T>>, p: nat, c: nat)
    requires p < c < |s| && ParentAndChild(p, c)
    ensures WithParent(Rewiring(s, p, c, 3), 2 * c + 1, s[p]) == Rewiring(s, p, c, 4)
  {
    var e, e' := Rewiring(s, p, c, 3), Rewiring(s, p, c, 4);
    forall i: nat | i < |s| ensures WithParent(e, 2 * c + 1, s[p])[i] == e'[i] {
      assert e[i] == Rewired(s, p, c, 3, i) && e'[i] == Rewired(s, p, c, 4, i);
    }
  }

  lemma RewiringStep5<T>(s: seq<Node<T>>, p: nat, c: nat)
    requires p < c < |s| && ParentAndChild(p, c)
    ensures WithParent(Rewiring(s, p, c, 4), 2 * c + 2, s[p]) == Rewiring(s, p, c, 5)
  {
    var e, e' := Rewiring(s, p, c, 4), Rewiring(s, p, c, 5);
    forall i: nat | i < |s| ensures WithParent(e, 2 * c + 2, s[p])[i] == e'[i] {
      assert e[i] == Rewired(s, p, c, 4, i) && e'[i] == Rewired(s, p, c, 5, i);
    }
  }

  lemma RewiringStep6<T>(s: seq<Node<T>>, p: nat, c: nat)
    requires p < c < |s| && ParentAndChild(p, c)
    ensures p == 0 ==> Rewiring(s, p, c, 5) == Rewiring(s, p, c, 6)
    ensures p > 0 ==> WithChild(Rewiring(s, p, c, 5), (p - 1) / 2, p % 2 == 0, s[c]) == Rewiring(s, p, c, 6)
  {
    if p > 0 {
      var k, e, e' := (p - 1) / 2, Rewiring(s, p, c, 5), Rewiring(s, p, c, 6);
      assert p == 2 * k + 1 || p == 2 * k + 2;
      assert p % 2 == 0 <==> p == 2 * k + 2;
      forall i: nat | i < |s| ensures WithChild(e, k, p % 2 == 0, s[c])[i] == e'[i] {
        assert e[i] == Rewired(s, p, c, 5, i) && e'[i] == Rewired(s, p, c, 6, i);
      }
    }
  }

  /** The writes end with the links of the tree with the two nodes exchanged. */
  lemma RewiringEnds<T>(s: seq<Node<T>>, p: nat, c: nat, i: nat)
    requires p < c < |s| && ParentAndChild(p, c) && i < |s|
    ensures Rewired(s, p, c, 6, i) == Belongs(Swapped(s, p, c), if i == p then c else if i == c then p else i)
  {
  }

  /** What the code reads while rewiring: the links of the pair and of the node
      above it. */
  lemma ReadPair<T>(s: seq<Node<T>>, p: nat, c: nat, steps: nat)
    requires p < c < |s| && ParentAndChild(p, c) && 1 <= steps <= 5
    requires Has(s, Rewiring(s, p, c, steps))
    ensures s[p].left == At(s, 2 * c + 1) && s[p].right == At(s, 2 * c + 2)
    ensures s[c].parent == if p == 0 then null else s[(p - 1) / 2]
    ensures steps == 1 ==> (s[c].left == s[c] <==> c == 2 * p + 1)
    ensures steps == 2 ==> if c == 2 * p + 1 then s[c].right == At(s, 2 * p + 2) else s[c].left == At(s, 2 * p + 1)
  {
    assert HasAt(s, Rewiring(s, p, c, steps), p) && HasAt(s, Rewiring(s, p, c, steps), c);
  }

  lemma ReadAbove<T>(s: seq<Node<T>>, p: nat, c: nat)
    requires p < c < |s| && ParentAndChild(p, c)
    requires Has(s, Rewiring(s, p, c, 5))
    ensures p > 0 ==> (s[(p - 1) / 2].left == s[p] <==> p % 2 == 1)
  {
    if p > 0 {
      assert HasAt(s, Rewiring(s, p, c, 5), (p - 1) / 2);
    }
  }

  lemma RewiredIsLinked<T>(s: seq<Node<T>>, p: nat, c: nat)
    requires p < c < |s| && ParentAndChild(p, c)
    requires Has(s, Rewiring(s, p, c, 6))
    ensures Linked(Swapped(s, p, c))
  {
    var s' := Swapped(s, p, c);
    forall i: nat | i < |s'| ensures HasAt(s', Tree(s'), i) {
      var j := if i == p then c else if i == c then p else i;
      RewiringEnds(s, p, c, j);
      assert HasAt(s, Rewiring(s, p, c, 6), j);
    }
  }

  // ---------- The order ----------

  ghost predicate WeakOrderLaws<T>(less: (T, T) -> bool, a: T, b: T, c: T) {
    && !less(a, a)
    && (less(a, b) && less(b, c) ==> less(a, c))
    && (less(a, c) ==> less(a, b) || less(b, c))
  }

  /** A strict weak order: irreflexive, transitive, and incomparability is transitive. */
  ghost predicate StrictWeakOrder<T(!new)>(less: (T, T) -> bool) {
    forall a, b, c :: WeakOrderLaws(less, a, b, c)
  }

  ghost function Keys<T>(s: seq<Node<T>>): (k: seq<T>)
    reads s`data
    ensures |k| == |s| && forall i :: 0 <= i < |s| ==> k[i] == s[i].data
  {
    if s == [] then [] else [s[0].data] + Keys(s[1..])
  }

  /** Slot i does not come before the slot above it. */
  ghost predicate OrderedAt<T>(less: (T, T) -> bool, k: seq<T>, i: nat)
    requires i < |k|
  {
    i == 0 || !less(k[i], k[(i - 1) / 2])
  }

  ghost predicate HeapOrder<T>(less: (T, T) -> bool, k: seq<T>) {
    forall i: nat :: i < |k| ==> OrderedAt(less, k, i)
  }

  /** Ordered but for the edge above x, and the slots below x do not come before the
      slot above x. */
  ghost predicate OrderedBut<T>(less: (T, T) -> bool, k: seq<T>, x: nat)
    requires x < |k|
  {
    && (forall i: nat :: i < |k| && i != x ==> OrderedAt(less, k, i))
    && BelowFits(less, k, x)
  }

  ghost predicate BelowFits<T>(less: (T, T) -> bool, k: seq<T>, x: nat)
    requires x < |k|
  {
    forall i: nat :: i < |k| && ParentAndChild(x, i) ==> FitsAbove(less, k, x, i)
  }

  ghost predicate FitsAbove<T>(less: (T, T) -> bool, k: seq<T>, x: nat, i: nat)
    requires i < |k| && x < |k|
  {
    x == 0 || !less(k[i], k[(x - 1) / 2])
  }

  /** Ordered but for the edges below x, and what is below x, like x itself unless
      x is where the walk began, does not come before the slot above x. */
  ghost predicate OrderedButBelow<T>(less: (T, T) -> bool, k: seq<T>, x: nat, start: nat)
    requires x < |k|
  {
    && (forall i: nat :: i < |k| && i != x && i != 2 * x + 1 && i != 2 * x + 2 ==> OrderedAt(less, k, i))
    && (x != start ==> OrderedAt(less, k, x))
    && BelowFits(less, k, x)
  }

  /** One turn of the walk up. */
  lemma SiftUpStep<T(!new)>(less: (T, T) -> bool, k: seq<T>, x: nat)
    requires StrictWeakOrder(less) && 0 < x < |k| && OrderedBut(less, k, x)
    requires less(k[x], k[(x - 1) / 2])
    ensures OrderedBut(less, Swapped(k, (x - 1) / 2, x), (x - 1) / 2)
  {
    var p := (x - 1) / 2;
    var k' := Swapped(k, p, x);
    forall i: nat | i < |k'| && i != p ensures OrderedAt(less, k', i) {
      assert i != x ==> OrderedAt(less, k, i);
      assert ParentAndChild(x, i) ==> FitsAbove(less, k, x, i);
      assert WeakOrderLaws(less, k[i], k[x], k[p]) && WeakOrderLaws(less, k[x], k[p], k[x]);
    }
    forall i: nat | i < |k'| && ParentAndChild(p, i) ensures FitsAbove(less, k', p, i) {
      assert OrderedAt(less, k, p);
      assert i != x ==> OrderedAt(less, k, i);
      assert p > 0 ==> WeakOrderLaws(less, k[i], k[(p - 1) / 2], k[p]) && WeakOrderLaws(less, k[i], k[p], k[(p - 1) / 2]);
    }
  }

  lemma OrderedButEnds<T>(less: (T, T) -> bool, k: seq<T>, x: nat)
    requires x < |k| && OrderedBut(less, k, x)
    ensures OrderedAt(less, k, x) ==> HeapOrder(less, k)
  {
    forall i: nat | i < |k| && OrderedAt(less, k, x) ensures OrderedAt(less, k, i) {
    }
  }

  /** One turn of the walk down: the lesser child c moves up. */
  lemma SiftDownStep<T(!new)>(less: (T, T) -> bool, k: seq<T>, x: nat, c: nat, start: nat)
    requires StrictWeakOrder(less) && c < |k| && ParentAndChild(x, c) && OrderedButBelow(less, k, x, start) && start <= x
    requires less(k[c], k[x])
    requires 4 * x + 3 - c < |k| ==> !less(k[4 * x + 3 - c], k[c])
    ensures OrderedButBelow(less, Swapped(k, x, c), c, start)
  {
    var k' := Swapped(k, x, c);
    forall i: nat | i < |k'| && i != c && i != 2 * c + 1 && i != 2 * c + 2 ensures OrderedAt(less, k', i) {
      if i == x {
        assert FitsAbove(less, k, x, c);
      } else if i != 4 * x + 3 - c {
        assert OrderedAt(less, k, i);
      }
    }
    assert WeakOrderLaws(less, k[c], k[x], k[c]);
    assert OrderedAt(less, k', c);
    forall i: nat | i < |k'| && ParentAndChild(c, i) ensures FitsAbove(less, k', c, i) {
      assert OrderedAt(less, k, i);
    }
  }

  /** The root is least. */
  lemma {:induction false} RootIsLeast<T(!new)>(less: (T, T) -> bool, k: seq<T>, i: nat)
    requires StrictWeakOrder(less) && HeapOrder(less, k) && i < |k|
    ensures !less(k[i], k[0])
  {
    if i == 0 {
      assert WeakOrderLaws(less, k[0], k[0], k[0]);
    } else {
      RootIsLeast(less, k, (i - 1) / 2);
      assert OrderedAt(less, k, i);
      assert WeakOrderLaws(less, k[i], k[(i - 1) / 2], k[0]);
    }
  }

  // ---------- The heap ----------

  /** Slot i is above slot n exactly if it is slot (n - 1) / 2. */
  lemma ParentOf(n: nat, i: nat)
    requires n > 0
    ensures i == (n - 1) / 2 <==> n == 2 * i + 1 || n == 2 * i + 2
    ensures n % 2 == 0 && i == (n - 1) / 2 <==> n == 2 * i + 2
  {
  }

  lemma AttachedAt<T>(s: seq<Node<T>>, x: Node<T>, i: nat)
    requires i < |s|
    ensures WithChild(Tree(s), (|s| - 1) / 2, |s| % 2 == 0, x)[i] == Tree(s + [x])[i]
  {
    ParentOf(|s|, i);
    assert Tree(s + [x])[i] == Belongs(s + [x], i);
  }

  lemma AttachedLast<T>(s: seq<Node<T>>, x: Node<T>)
    requires |s| > 0
    ensures Tree(s + [x])[|s|] == Links(null, null, s[(|s| - 1) / 2])
  {
  }

  lemma HasOf<T>(s: seq<Node<T>>, e: seq<Links<T>>, i: nat)
    requires Has(s, e) && i < |s|
    ensures |e| == |s| && Distinct(s) && HasAt(s, e, i)
  {
  }

  lemma LinkedOf<T>(s: seq<Node<T>>)
    requires Distinct(s) && forall i: nat :: i < |s| ==> HasAt(s, Tree(s), i)
    ensures Linked(s)
  {
  }

  /** A new last node hangs below its slot's parent. */
  lemma AttachLinked<T>(s: seq<Node<T>>, x: Node<T>)
    requires |s| > 0 && x !in s
    requires Has(s, WithChild(Tree(s), (|s| - 1) / 2, |s| % 2 == 0, x))
    requires x.left == x.right == null && x.parent == s[(|s| - 1) / 2]
    ensures Linked(s + [x])
  {
    hide Has, Linked, Belongs, Tree, WithChild, Distinct;
    var t, e := s + [x], WithChild(Tree(s), (|s| - 1) / 2, |s| % 2 == 0, x);
    HasOf(s, e, 0);
    DistinctSnoc(s, x);
    AttachedLast(s, x);
    forall i: nat | i < |t| ensures HasAt(t, Tree(t), i) {
      if i < |s| {
        HasOf(s, e, i);
        AttachedAt(s, x, i);
      }
    }
    LinkedOf(t);
  }

  lemma DetachedAt<T>(s: seq<Node<T>>, i: nat)
    requires i < |s| - 1
    ensures WithChild(Tree(s), (|s| - 2) / 2, |s| % 2 == 1, null)[i] == Tree(s[..|s| - 1])[i]
  {
    ParentOf(|s| - 1, i);
    assert Tree(s[..|s| - 1])[i] == Belongs(s[..|s| - 1], i);
  }

  /** The last node is cut off below its slot's parent. */
  lemma DetachLinked<T>(s: seq<Node<T>>)
    requires |s| > 1
    requires Has(s, WithChild(Tree(s), (|s| - 2) / 2, |s| % 2 == 1, null))
    ensures Linked(s[..|s| - 1])
  {
    hide Has, Linked, Belongs, Tree, WithChild, Distinct;
    var t, e := s[..|s| - 1], WithChild(Tree(s), (|s| - 2) / 2, |s| % 2 == 1, null);
    HasOf(s, e, 0);
    DistinctInit(s);
    forall i: nat | i < |t| ensures HasAt(t, Tree(t), i) {
      HasOf(s, e, i);
      DetachedAt(s, i);
    }
    LinkedOf(t);
  }

  /** The links of slot i, for the nodes before, once x takes over slot r: after the
      first `steps` of the three writes around it. */
  ghost function Replaced<T>(s: seq<Node<T>>, r: nat, x: Node<T>, steps: nat, i: nat): Links<T>
    requires i < |s|
  {
    var was := Belongs(s, i);
    Links(
      if steps >= 3 && r == 2 * i + 1 then x else was.left,
      if steps >= 3 && r == 2 * i + 2 then x else was.right,
      if steps >= 1 && i == 2 * r + 1 then x else if steps >= 2 && i == 2 * r + 2 then x else was.parent)
  }

  ghost function Replacing<T>(s: seq<Node<T>>, r: nat, x: Node<T>, steps: nat): (e: seq<Links<T>>)
    ensures |e| == |s|
  {
    seq(|s|, i requires 0 <= i < |s| => Replaced(s, r, x, steps, i))
  }

  lemma ReplacingSteps<T>(s: seq<Node<T>>, r: nat, x: Node<T>)
    ensures Tree(s) == Replacing(s, r, x, 0)
    ensures WithParent(Replacing(s, r, x, 0), 2 * r + 1, x) == Replacing(s, r, x, 1)
    ensures WithParent(Replacing(s, r, x, 1), 2 * r + 2, x) == Replacing(s, r, x, 2)
  {
    var e0, e1, e2 := Replacing(s, r, x, 0), Replacing(s, r, x, 1), Replacing(s, r, x, 2);
    forall i: nat | i < |s|
      ensures Tree(s)[i] == e0[i] && WithParent(e0, 2 * r + 1, x)[i] == e1[i] && WithParent(e1, 2 * r + 2, x)[i] == e2[i]
    {
      assert e0[i] == Replaced(s, r, x, 0, i) && e1[i] == Replaced(s, r, x, 1, i) && e2[i] == Replaced(s, r, x, 2, i);
    }
  }

  lemma ReplacingLastStep<T>(s: seq<Node<T>>, r: nat, x: Node<T>)
    ensures r == 0 ==> Replacing(s, r, x, 2) == Replacing(s, r, x, 3)
    ensures r > 0 ==> WithChild(Replacing(s, r, x, 2), (r - 1) / 2, r % 2 == 0, x) == Replacing(s, r, x, 3)
  {
    if r > 0 {
      var k, e, e' := (r - 1) / 2, Replacing(s, r, x, 2), Replacing(s, r, x, 3);
      assert r == 2 * k + 1 || r == 2 * k + 2;
      forall i: nat | i < |s| ensures WithChild(e, k, r % 2 == 0, x)[i] == e'[i] {
        assert e[i] == Replaced(s, r, x, 2, i) && e'[i] == Replaced(s, r, x, 3, i);
      }
    }
  }

  lemma ReplaceLinked<T>(s: seq<Node<T>>, r: nat, x: Node<T>)
    requires r < |s| && x !in s && Has(s, Replacing(s, r, x, 3))
    requires Links(x.left, x.right, x.parent) == Belongs(s, r)
    ensures Linked(s[r := x])
  {
    var t := s[r := x];
    assert forall i :: 0 <= i < |s| ==> s[i] != x;
    forall i: nat | i < |t| ensures HasAt(t, Tree(t), i) {
      assert HasAt(s, Replacing(s, r, x, 3), i);
    }
  }

  // ---------- The path to a slot ----------

  /** Where k steps lead from a slot counted from 1, the lowest bit of the path
      first: 0 to the left child, 1 to the right. */
  ghost function Walk(slot: nat, path: nat, k: nat): nat
    decreases k
  {
    if k == 0 then slot else Walk(2 * slot + path % 2, path / 2, k - 1)
  }

  lemma {:induction false} WalkGrows(slot: nat, path: nat, k: nat)
    ensures Walk(slot, path, k) >= slot
    ensures k > 0 ==> Walk(slot, path, k) >= 2 * slot
    decreases k
  {
    if k > 0 {
      WalkGrows(2 * slot + path % 2, path / 2, k - 1);
    }
  }

  /** n shifted left by k. */
  ghost function Shift(n: nat, k: nat): nat
    decreases k
  {
    if k == 0 then n else Shift(2 * n, k - 1)
  }

  lemma ShiftMore(n: nat, k: nat)
    ensures Shift(n, k + 1) == Shift(2 * n, k)
  {
  }

  lemma {:induction false} ShiftMonotone(m: nat, n: nat, k: nat)
    requires m <= n
    ensures Shift(m, k) <= Shift(n, k)
    decreases k
  {
    if k > 0 {
      ShiftMonotone(2 * m, 2 * n, k - 1);
    }
  }

  lemma {:induction false} ShiftDouble(n: nat, k: nat)
    ensures Shift(2 * n, k) == 2 * Shift(n, k)
    decreases k
  {
    if k > 0 {
      ShiftDouble(2 * n, k - 1);
    }
  }

  const LIMIT: nat := 0x1_0000_0000

  lemma Appended(path: nat, bit: nat)
    requires bit < 2
    ensures (2 * path + bit) % 2 == bit && (2 * path + bit) / 2 == path
  {
  }

  lemma WalkStep(n: nat, path: nat, k: nat)
    ensures Walk(n / 2, 2 * path + n % 2, k + 1) == Walk(n, path, k)
  {
    Appended(path, n % 2);
    assert 2 * (n / 2) + n % 2 == n;
  }

  /** One turn of the loop that gathers the path: no bit is shifted out. */
  lemma PathStep(n: nat, path: nat, k: nat, target: nat)
    requires n >= 2 && target < LIMIT && path < Shift(1, k) && Shift(n, k) <= target
    ensures 2 * path % LIMIT == 2 * path && 2 * path + n % 2 < Shift(1, k + 1) && Shift(n / 2, k + 1) <= target
    ensures Walk(n / 2, 2 * path + n % 2, k + 1) == Walk(n, path, k)
  {
    ShiftMonotone(2 * (n / 2), n, k);
    ShiftMonotone(2, n, k);
    ShiftDouble(1, k);
    ShiftMore(1, k);
    ShiftMore(n / 2, k);
    hide Shift, Walk;
    WalkStep(n, path, k);
  }

  /** The bits of the node count, in the order they are followed from the root;
      they fit in an unsigned int. */
  method PathTo(target: nat) returns (path: nat, k: nat)
    requires 1 <= target < LIMIT
    ensures Walk(1, path, k) == target
  {
    var n := target;
    path, k := 0, 0;
    while n >= 2
      invariant n >= 1 && Walk(n, path, k) == target
      invariant path < Shift(1, k) && Shift(n, k) <= target
    {
      hide Walk, Shift;
      PathStep(n, path, k, target);
      path := (2 * path % LIMIT) + n % 2;
      k := k + 1;
      n := n / 2;
    }
  }

  lemma OnlyNode<T>(x: Node<T>)
    requires x.left == x.right == x.parent == null
    ensures Linked([x])
  {
    var s := [x];
    assert HasAt(s, Tree(s), 0);
  }

  lemma AppendedOrder<T>(less: (T, T) -> bool, k: seq<T>, d: T)
    requires HeapOrder(less, k)
    ensures OrderedBut(less, k + [d], |k|)
  {
    forall i: nat | i < |k| ensures OrderedAt(less, k + [d], i) {
      assert OrderedAt(less, k, i);
    }
  }

  /** Another key in slot r: what is below it still fits what is above. */
  lemma ReplacedOrder<T(!new)>(less: (T, T) -> bool, k: seq<T>, r: nat, d: T)
    requires StrictWeakOrder(less) && HeapOrder(less, k) && r < |k|
    ensures OrderedButBelow(less, k[r := d], r, r)
  {
    var k' := k[r := d];
    forall i: nat | i < |k| && i != r && i != 2 * r + 1 && i != 2 * r + 2 ensures OrderedAt(less, k', i) {
      assert OrderedAt(less, k, i);
    }
    forall i: nat | i < |k| && ParentAndChild(r, i) ensures FitsAbove(less, k', r, i) {
      assert OrderedAt(less, k, i) && OrderedAt(less, k, r);
      assert r > 0 ==> WeakOrderLaws(less, k[i], k[r], k[(r - 1) / 2]);
    }
  }

  lemma ShorterOrder<T>(less: (T, T) -> bool, k: seq<T>, n: nat)
    requires HeapOrder(less, k) && n <= |k|
    ensures HeapOrder(less, k[..n])
  {
    forall i: nat | i < n ensures OrderedAt(less, k[..n], i) {
      assert OrderedAt(less, k, i);
    }
  }

  lemma NoNodes<T>()
    ensures Linked<T>([])
  {
  }

  lemma ReadAboveReplaced<T>(s: seq<Node<T>>, r: nat, x: Node<T>)
    requires r < |s| && x !in s && Has(s, Replacing(s, r, x, 2))
    ensures s[r].parent == if r == 0 then null else s[(r - 1) / 2]
    ensures r > 0 ==> (s[(r - 1) / 2].left == s[r] <==> r % 2 == 1)
  {
    assert HasAt(s, Replacing(s, r, x, 2), r);
    if r > 0 {
      assert HasAt(s, Replacing(s, r, x, 2), (r - 1) / 2);
    }
  }

  /** The child that the walk down picks is one that its sibling does not come before. */
  lemma SmallestChild<T(!new)>(less: (T, T) -> bool, k: seq<T>, x: nat)
    requires StrictWeakOrder(less) && x < |k|
    ensures var l, r := 2 * x + 1, 2 * x + 2;
            && (r < |k| && !less(k[l], k[x]) && less(k[r], k[x]) ==> !less(k[l], k[r]))
            && (r < |k| && less(k[r], k[l]) ==> !less(k[l], k[r]))
            && (r < |k| && less(k[l], k[x]) && less(k[r], k[l]) ==> less(k[r], k[x]))
  {
    if 2 * x + 2 < |k| {
      var l, r := 2 * x + 1, 2 * x + 2;
      assert WeakOrderLaws(less, k[l], k[r], k[x]) && WeakOrderLaws(less, k[r], k[l], k[r]) && WeakOrderLaws(less, k[r], k[l], k[x]);
    }
  }

  lemma OrderedBelowEnds<T>(less: (T, T) -> bool, k: seq<T>, x: nat, start: nat)
    requires x < |k| && OrderedButBelow(less, k, x, start)
    requires 2 * x + 1 < |k| ==> !less(k[2 * x + 1], k[x])
    requires 2 * x + 2 < |k| ==> !less(k[2 * x + 2], k[x])
    ensures OrderedBut(less, k, x)
  {
  }

  class Heap<T(!new)> {
    var min: Node?<T>
    var nelts: nat
    const less: (T, T) -> bool
    ghost var nodes: seq<Node<T>>  // by slot

    constructor (less: (T, T) -> bool)
      requires StrictWeakOrder(less)
      ensures this.less == less && Valid() && nodes == []
    {
      this.less := less;
      min, nelts, nodes := null, 0, [];
    }

    ghost predicate Shape()
      reads this, nodes`left, nodes`right, nodes`parent
    {
      nelts == |nodes| && min == At(nodes, 0) && Linked(nodes)
    }

    ghost predicate Valid()
      reads this, nodes
    {
      StrictWeakOrder(less) && Shape() && HeapOrder(less, Keys(nodes))
    }

    /** heap_node_swap up to the links above the pair. */
    static method SwapPair(parent: Node<T>, child: Node<T>, ghost s: seq<Node<T>>, ghost p: nat, ghost c: nat)
      requires Linked(s) && p < c < |s| && ParentAndChild(p, c) && s[p] == parent && s[c] == child
      modifies s`left, s`right, s`parent
      ensures Has(s, Rewiring(s, p, c, 5))
    {
      hide Belongs, Tree, Rewiring, Has, WithParent, WithChild;
      Exchange(parent, child, s, Tree(s), p, c);
      RewiringStarts(s, p, c);
      SetParent(parent, child, s, Rewiring(s, p, c, 0), p);
      RewiringStep1(s, p, c);
      ReadPair(s, p, c, 1);
      var sibling;
      if child.left == child {
        SetChild(child, false, parent, s, Rewiring(s, p, c, 1), c);
        sibling := child.right;
      } else {
        SetChild(child, true, parent, s, Rewiring(s, p, c, 1), c);
        sibling := child.left;
      }
      RewiringStep2(s, p, c);
      ReadPair(s, p, c, 2);
      SetParent(sibling, child, s, Rewiring(s, p, c, 2), 4 * p + 3 - c);
      RewiringStep3(s, p, c);
      ReadPair(s, p, c, 3);
      SetParent(parent.left, parent, s, Rewiring(s, p, c, 3), 2 * c + 1);
      RewiringStep4(s, p, c);
      ReadPair(s, p, c, 4);
      SetParent(parent.right, parent, s, Rewiring(s, p, c, 4), 2 * c + 2);
      RewiringStep5(s, p, c);
    }

    /** heap_node_swap: the child in slot c and its parent in slot p change places. */
    method NodeSwap(parent: Node<T>, child: Node<T>, ghost p: nat, ghost c: nat)
      requires Shape() && p < c < |nodes| && ParentAndChild(p, c)
      requires nodes[p] == parent && nodes[c] == child
      modifies this`min, this`nodes, nodes`left, nodes`right, nodes`parent
      ensures Shape() && nodes == Swapped(old(nodes), p, c)
    {
      ghost var s := nodes;
      hide Belongs, Tree, Rewiring, Has, WithParent, WithChild, Linked;
      SwapPair(parent, child, s, p, c);
      ReadPair(s, p, c, 5);
      ReadAbove(s, p, c);
      RewiringStep6(s, p, c);
      nodes := Swapped(s, p, c);
      if child.parent == null {
        min := child;
      } else if child.parent.left == parent {
        SetChild(child.parent, false, child, s, Rewiring(s, p, c, 5), (p - 1) / 2);
      } else {
        SetChild(child.parent, true, child, s, Rewiring(s, p, c, 5), (p - 1) / 2);
      }
      RewiredIsLinked(s, p, c);
    }

    /** Keys after a swap, which moves the nodes and not what they hold. */
    lemma SwappedKeys(s: seq<Node<T>>, p: nat, c: nat)
      requires p < |s| && c < |s|
      ensures Keys(Swapped(s, p, c)) == Swapped(Keys(s), p, c)
    {
      hide Keys;
      var s', k' := Swapped(s, p, c), Swapped(Keys(s), p, c);
      forall i | 0 <= i < |s| ensures Keys(s')[i] == k'[i] {
      }
    }

    /** The walk up: as long as the node comes before its parent, they change places. */
    method SiftUp(node: Node<T>, ghost at: nat)
      requires StrictWeakOrder(less) && Shape() && at < |nodes| && nodes[at] == node
      requires OrderedBut(less, Keys(nodes), at)
      modifies this`min, this`nodes, nodes`left, nodes`right, nodes`parent
      ensures Valid() && Same(nodes, old(nodes))
    {
      ghost var x: nat := at;
      hide StrictWeakOrder, Linked, OrderedBut, HeapOrder, Keys;
      while true
        invariant StrictWeakOrder(less) && Shape() && x < |nodes| && nodes[x] == node
        invariant OrderedBut(less, Keys(nodes), x)
        invariant Same(nodes, old(nodes))
        decreases x
      {
        LinksAt(nodes, x);
        ghost var p: nat := if x > 0 then (x - 1) / 2 else 0;
        OrderedButEnds(less, Keys(nodes), x);
        if node.parent == null {
          break;
        }
        if !less(node.data, node.parent.data) {
          break;
        }
        SiftUpStep(less, Keys(nodes), x);
        SwappedKeys(nodes, p, x);
        SwappedKeeps(nodes, p, x);
        NodeSwap(node.parent, node, p, x);
        x := p;
      }
    }

    /** Following a path from &heap->min: the place of the slot it leads to, as the
        node that holds the pointer (none for heap->min) and which of its pointers. */
    method Locate(path0: nat, k0: nat, ghost target: nat) returns (holder: Node?<T>, right: bool)
      requires Shape() && Walk(1, path0, k0) == target <= |nodes| + 1
      ensures target >= 1
      ensures holder == (if target == 1 then null else nodes[target / 2 - 1])
      ensures target > 1 ==> right == (target % 2 == 1)
    {
      var path, k := path0, k0;
      holder, right := null, false;
      ghost var slot: nat := 1;
      while k > 0
        invariant slot >= 1 && Walk(slot, path, k) == target
        invariant slot / 2 <= |nodes|
        invariant holder == (if slot == 1 then null else nodes[slot / 2 - 1])
        invariant slot > 1 ==> right == (slot % 2 == 1)
      {
        WalkGrows(slot, path, k);
        if slot > 1 {
          LinksAt(nodes, slot / 2 - 1);
        }
        holder := if holder == null then min else if right then holder.right else holder.left;
        right := path % 2 == 1;
        slot := 2 * slot + path % 2;
        path := path / 2;
        k := k - 1;
      }
      WalkGrows(slot, path, 0);
    }

    lemma AppendedKeys(s: seq<Node<T>>, x: Node<T>)
      ensures Keys(s + [x]) == Keys(s) + [x.data]
    {
    }

    /** heap_insert up to the walk: the new node goes to the first free slot. */
    method Attach(newnode: Node<T>)
      requires Shape() && newnode !in nodes && nelts + 1 < LIMIT
      modifies this`min, this`nelts, this`nodes, newnode`left, newnode`right, newnode`parent
      modifies nodes`left, nodes`right
      ensures Shape() && nodes == old(nodes) + [newnode]
    {
      hide Has, WithChild, Tree;
      newnode.left, newnode.right, newnode.parent := null, null, null;
      var path, k := PathTo(1 + nelts);
      var holder, right := Locate(path, k, |nodes| + 1);
      newnode.parent := holder;
      ghost var s := nodes;
      nelts := nelts + 1;
      nodes := s + [newnode];
      if holder == null {
        min := newnode;
        OnlyNode(newnode);
        assert nodes == [newnode];
      } else {
        SetChild(holder, right, newnode, s, Tree(s), (|s| - 1) / 2);
        AttachLinked(s, newnode);
      }
    }

    lemma MembersWith(s: seq<Node<T>>, x: Node<T>, t: seq<Node<T>>)
      requires Same(t, s + [x])
      ensures forall y :: y in t <==> y in s || y == x
    {
      forall y ensures y in t <==> y in s || y == x {
        assert y in s + [x] <==> y in s || y == x;
      }
    }

    /** heap_insert. */
    method Insert(newnode: Node<T>)
      requires Valid() && newnode !in nodes && nelts + 1 < LIMIT
      modifies this`min, this`nelts, this`nodes, newnode`left, newnode`right, newnode`parent
      modifies nodes`left, nodes`right, nodes`parent
      ensures Valid() && |nodes| == |old(nodes)| + 1
      ensures forall y :: y in nodes <==> y in old(nodes) || y == newnode
    {
      hide StrictWeakOrder, HeapOrder, Linked, Keys, Same;
      ghost var s, k := nodes, Keys(nodes);
      Attach(newnode);
      AppendedKeys(s, newnode);
      AppendedOrder(less, k, newnode.data);
      SiftUp(newnode, |nodes| - 1);
      MembersWith(s, newnode, nodes);
    }

    /** heap_remove: unlinks the last node of the bottom row. */
    method DetachLast() returns (child: Node<T>)
      requires Shape() && 0 < nelts < LIMIT
      modifies this`min, this`nelts, this`nodes, nodes`left, nodes`right
      ensures Shape() && nodes == old(nodes)[..|old(nodes)| - 1] && child == old(nodes)[|old(nodes)| - 1]
    {
      hide Has, WithChild, Tree;
      ghost var s := nodes;
      var path, k := PathTo(nelts);
      var holder, right := Locate(path, k, |nodes|);
      nelts := nelts - 1;
      nodes := s[..|s| - 1];
      if holder == null {
        child := min;
        min := null;
        NoNodes<T>();
        assert nodes == [];
      } else {
        LinksAt(s, (|s| - 2) / 2);
        child := if right then holder.right else holder.left;
        SetChild(holder, right, null, s, Tree(s), (|s| - 2) / 2);
        DetachLinked(s);
      }
    }

    /** heap_remove: child takes the place of the node in slot r. */
    method Replace(node: Node<T>, child: Node<T>, ghost r: nat)
      requires Shape() && r < |nodes| && nodes[r] == node && child !in nodes
      modifies this`min, this`nodes, child`left, child`right, child`parent, nodes`left, nodes`right, nodes`parent
      ensures Shape() && nodes == old(nodes)[r := child]
    {
      hide Has, WithChild, WithParent, Tree, Replacing;
      ghost var s := nodes;
      LinksAt(s, r);
      child.left := node.left;
      child.right := node.right;
      child.parent := node.parent;
      nodes := s[r := child];
      ReplacingSteps(s, r, child);
      ReplacingLastStep(s, r, child);
      SetParent(child.left, child, s, Replacing(s, r, child, 0), 2 * r + 1);
      SetParent(child.right, child, s, Replacing(s, r, child, 1), 2 * r + 2);
      ReadAboveReplaced(s, r, child);
      if node.parent == null {
        min := child;
      } else if node.parent.left == node {
        SetChild(node.parent, false, child, s, Replacing(s, r, child, 2), (r - 1) / 2);
      } else {
        SetChild(node.parent, true, child, s, Replacing(s, r, child, 2), (r - 1) / 2);
      }
      ReplaceLinked(s, r, child);
    }

    /** The child that the walk down turns to, if any: the comparisons pick the lesser
        of the two when it comes before the node. */
    method Smallest(child: Node<T>, ghost x: nat) returns (smallest: Node<T>, ghost c: nat)
      requires StrictWeakOrder(less) && Shape() && x < |nodes| && nodes[x] == child
      ensures smallest == child ==>
        && (2 * x + 1 < |nodes| ==> !less(nodes[2 * x + 1].data, child.data))
        && (2 * x + 2 < |nodes| ==> !less(nodes[2 * x + 2].data, child.data))
      ensures smallest != child ==> ParentAndChild(x, c) && c < |nodes| && smallest == nodes[c] && less(smallest.data, child.data)
      ensures smallest != child && 4 * x + 3 - c < |nodes| ==> !less(nodes[4 * x + 3 - c].data, smallest.data)
    {
      hide StrictWeakOrder, Linked;
      LinksAt(nodes, x);
      ChildrenApart(nodes, x);
      SmallestChild(less, Keys(nodes), x);
      smallest, c := child, x;
      if child.left != null && less(child.left.data, smallest.data) {
        smallest, c := child.left, 2 * x + 1;
      }
      if child.right != null && less(child.right.data, smallest.data) {
        smallest, c := child.right, 2 * x + 2;
      }
    }

    /** The walk down: while a child comes before the node, swap with the least. */
    method SiftDown(child: Node<T>, ghost start: nat) returns (ghost x: nat)
      requires StrictWeakOrder(less) && Shape() && start < |nodes| && nodes[start] == child
      requires OrderedButBelow(less, Keys(nodes), start, start)
      modifies this`min, this`nodes, nodes`left, nodes`right, nodes`parent
      ensures Shape() && Same(nodes, old(nodes)) && x < |nodes| && nodes[x] == child
      ensures OrderedBut(less, Keys(nodes), x)
    {
      x := start;
      hide StrictWeakOrder, Linked, OrderedBut, OrderedButBelow, HeapOrder, Keys;
      while true
        invariant Shape() && start <= x < |nodes| && nodes[x] == child
        invariant OrderedButBelow(less, Keys(nodes), x, start)
        invariant Same(nodes, old(nodes))
        decreases |nodes| - x
      {
        var smallest;
        ghost var c;
        smallest, c := Smallest(child, x);
        if smallest == child {
          OrderedBelowEnds(less, Keys(nodes), x, start);
          break;
        }
        SiftDownStep(less, Keys(nodes), x, c, start);
        SwappedKeys(nodes, x, c);
        SwappedKeeps(nodes, x, c);
        NodeSwap(child, smallest, x, c);
        x := c;
      }
    }

    lemma KeysOfPrefix(s: seq<Node<T>>, n: nat)
      requires n <= |s|
      ensures Keys(s[..n]) == Keys(s)[..n]
    {
    }

    lemma KeysReplaced(s: seq<Node<T>>, r: nat, x: Node<T>)
      requires r < |s|
      ensures Keys(s[r := x]) == Keys(s)[r := x.data]
    {
    }

    /** What is left in the slots when slot r is taken out: the last node fills it. */
    ghost function Without(s: seq<Node<T>>, r: nat): (t: seq<Node<T>>)
      requires r < |s|
      ensures |t| == |s| - 1
    {
      if r == |s| - 1 then s[..r] else s[..|s| - 1][r := s[|s| - 1]]
    }

    lemma WithoutHasNo(s: seq<Node<T>>, r: nat, i: nat)
      requires Distinct(s) && r < |s| && i < |s| - 1
      ensures Without(s, r)[i] in s && Without(s, r)[i] != s[r]
    {
    }

    lemma WithoutHasRest(s: seq<Node<T>>, r: nat, i: nat)
      requires Distinct(s) && r < |s| && i < |s| && i != r
      ensures s[i] in Without(s, r)
    {
      var t := Without(s, r);
      assert t[if i == |s| - 1 then r else i] == s[i];
    }

    lemma MembersWithout(s: seq<Node<T>>, r: nat, t: seq<Node<T>>)
      requires Distinct(s) && r < |s| && Same(t, Without(s, r))
      ensures forall y :: y in t <==> y in s && y != s[r]
    {
      hide Without, Distinct;
      var u := Without(s, r);
      forall y ensures y in t <==> y in s && y != s[r] {
        if y in t {
          var i :| 0 <= i < |u| && u[i] == y;
          WithoutHasNo(s, r, i);
        }
        if y in s && y != s[r] {
          var i :| 0 <= i < |s| && s[i] == y;
          WithoutHasRest(s, r, i);
        }
      }
    }

    lemma LastIsApart(s: seq<Node<T>>, r: nat)
      requires Distinct(s) && r < |s|
      ensures s[|s| - 1] == s[r] <==> r == |s| - 1
      ensures s[|s| - 1] !in s[..|s| - 1]
    {
    }

    /** heap_remove once the last node is cut off: it fills the place of the node and
        is moved down, then up. */
    method Refill(node: Node<T>, child: Node<T>, ghost r: nat)
      requires StrictWeakOrder(less) && Shape() && HeapOrder(less, Keys(nodes))
      requires r < |nodes| && nodes[r] == node && child !in nodes
      modifies this`min, this`nodes, child`left, child`right, child`parent, nodes`left, nodes`right, nodes`parent
      ensures Valid() && Same(nodes, old(nodes)[r := child])
    {
      hide StrictWeakOrder, Linked, OrderedBut, OrderedButBelow, HeapOrder, Keys;
      KeysReplaced(nodes, r, child);
      ReplacedOrder(less, Keys(nodes), r, child.data);
      Replace(node, child, r);
      var x := SiftDown(child, r);
      SiftUp(child, x);
    }

    /** heap_remove. */
    method Remove(node: Node<T>)
      requires Valid() && nelts < LIMIT && (nelts > 0 ==> node in nodes)
      modifies this`min, this`nelts, this`nodes, nodes`left, nodes`right, nodes`parent
      ensures Valid()
      ensures old(nelts) == 0 ==> nodes == []
      ensures old(nelts) > 0 ==> |nodes| == |old(nodes)| - 1
                                 && forall y :: y in nodes <==> y in old(nodes) && y != node
    {
      hide StrictWeakOrder, HeapOrder, Keys;
      if nelts == 0 {
        return;
      }
      ghost var s := nodes;
      ghost var r :| 0 <= r < |s| && s[r] == node;
      KeysOfPrefix(s, |s| - 1);
      ShorterOrder(less, Keys(s), |s| - 1);
      LastIsApart(s, r);
      var child := DetachLast();
      if child == node {
        assert child != min;  // the code's second reset of heap->min never happens
      } else {
        Refill(node, child, r);
      }
      MembersWithout(s, r, nodes);
    }

    /** heap_min: a node that no other comes before, unless there is none. */
    method Min() returns (m: Node?<T>)
      requires Valid()
      ensures m == null <==> nodes == []
      ensures m != null ==> m in nodes && m == nodes[0]
      ensures m != null ==> forall y :: y in nodes ==> !less(y.data, m.data)
    {
      m := min;
      ghost var k := Keys(nodes);
      hide StrictWeakOrder, HeapOrder, Linked, Keys;
      forall i | 0 <= i < |nodes| ensures !less(nodes[i].data, nodes[0].data) {
        RootIsLeast(less, k, i);
      }
    }

    /** heap_dequeue. */
    method Dequeue()
      requires Valid() && nelts < LIMIT
      modifies this`min, this`nelts, this`nodes, nodes`left, nodes`right, nodes`parent
      ensures Valid()
      ensures forall y :: y in nodes <==> y in old(nodes) && y != old(min)
    {
      if min != null {
        Remove(min);
      }
    }
  }
}
