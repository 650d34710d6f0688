/** libuv's QUEUE: intrusive circular doubly linked lists. A list is a head node
    and the sequence of nodes linked behind it; every macro is proved to perform
    one sequence operation. */
module Queue {
  import opened Sequences

  class Node {
    var next: Node
    var prev: Node

    /** QUEUE_INIT on a new node. */
    constructor Init()
      ensures Ring(this, [])
    {
      next, prev := this, this;
    }
  }

  /** The node after (or before) position i of the ring through h and s. */
  ghost function After(h: Node, s: seq<Node>, i: int): Node
    requires -1 <= i < |s|
  {
    if i + 1 < |s| then s[i + 1] else h
  }

  ghost function Behind(h: Node, s: seq<Node>, i: int): Node
    requires 0 <= i <= |s|
  {
    if i > 0 then s[i - 1] else h
  }

  /** h heads a well-formed circular list that holds exactly s, in order. */
  ghost predicate Ring(h: Node, s: seq<Node>)
    reads h, s
  {
    && h !in s && Distinct(s)
    && h.next == After(h, s, -1)
    && h.prev == Behind(h, s, |s|)
    && (forall i {:trigger s[i].next} :: 0 <= i < |s| ==> s[i].next == After(h, s, i))
    && (forall i {:trigger s[i].prev} :: 0 <= i < |s| ==> s[i].prev == Behind(h, s, i))
  }

  ghost predicate Apart(h: Node, s: seq<Node>, h': Node, s': seq<Node>) {
    && h != h' && h !in s' && h' !in s
    && (forall i :: 0 <= i < |s| ==> s[i] !in s')
    && (forall i :: 0 <= i < |s'| ==> s'[i] !in s)
  }

  /** What a ring holds is determined by its links alone. */
  lemma {:induction false} RingUnique(h: Node, s: seq<Node>, s': seq<Node>, k: nat)
    requires Ring(h, s) && Ring(h, s') && k <= |s|
    ensures k <= |s'| && s[..k] == s'[..k]
    ensures k == |s| ==> s == s'
  {
    if k > 0 {
      RingUnique(h, s, s', k - 1);
      ghost var last := if k > 1 then s[k - 2] else h;
      assert last.next == s[k - 1];
      assert k > 1 ==> s'[k - 2].next == last.next;
    }
    if k == |s| {
      ghost var last := if k > 0 then s[k - 1] else h;
      assert last.next == h;
      assert k > 0 ==> s'[k - 1].next == h;
    }
  }

  /** QUEUE_INIT. */
  method QueueInit(q: Node)
    modifies q
    ensures Ring(q, [])
  {
    q.next := q;
    q.prev := q;
  }

  /** QUEUE_EMPTY. */
  predicate QueueEmpty(q: Node)
    reads q
  {
    q == q.next
  }

  /** For a list head the test decides emptiness. For a member it decides whether
      the member is linked: it never holds while the member is in a list, and it
      holds after QUEUE_INIT. */
  lemma QueueEmptyDecides(h: Node, s: seq<Node>)
    requires Ring(h, s)
    ensures QueueEmpty(h) <==> s == []
    ensures forall i :: 0 <= i < |s| ==> !QueueEmpty(s[i])
  {
    forall i | 0 <= i < |s| ensures !QueueEmpty(s[i]) {
      assert s[i].next == After(h, s, i);
    }
  }

  /** QUEUE_INSERT_HEAD. */
  method InsertHead(h: Node, q: Node, ghost s: seq<Node>)
    requires Ring(h, s) && q != h && q !in s
    modifies h, h.next, q
    ensures Ring(h, [q] + s)
  {
    q.next := h.next;
    q.prev := h;
    q.next.prev := q;
    h.next := q;
  }

  /** QUEUE_INSERT_TAIL. */
  method InsertTail(h: Node, q: Node, ghost s: seq<Node>)
    requires Ring(h, s) && q != h && q !in s
    modifies h, h.prev, q
    ensures Ring(h, s + [q])
  {
    q.next := h;
    q.prev := h.prev;
    q.prev.next := q;
    h.prev := q;
  }

  /** The sequence without position i. */
  ghost function Without(s: seq<Node>, i: nat): (r: seq<Node>)
    requires i < |s|
    ensures |r| == |s| - 1 && forall k :: 0 <= k < |r| ==> r[k] == if k < i then s[k] else s[k + 1]
  {
    s[..i] + s[i + 1..]
  }

  lemma WithoutDistinct(h: Node, s: seq<Node>, i: nat)
    requires h !in s && Distinct(s) && i < |s|
    ensures Distinct(Without(s, i)) && h !in Without(s, i) && s[i] !in Without(s, i)
  {
  }

  /** What the neighbours of position k of the shorter ring are in the longer one. */
  lemma WithoutNeighbours(h: Node, s: seq<Node>, i: nat, k: int)
    requires i < |s| && -1 <= k < |s|
    ensures k < |s| - 1 ==>
              After(h, Without(s, i), k) ==
                if k < i - 1 then After(h, s, k) else if k == i - 1 then After(h, s, i) else After(h, s, k + 1)
    ensures 0 <= k ==>
              Behind(h, Without(s, i), k) ==
                if k < i then Behind(h, s, k) else if k == i then Behind(h, s, i) else Behind(h, s, k + 1)
  {
  }

  /** The links of member k, or of the head for -1. */
  ghost predicate LinksTo(h: Node, s: seq<Node>, k: int)
    requires -1 <= k < |s|
    reads h, s
  {
    if k < 0 then h.next == After(h, s, -1) && h.prev == Behind(h, s, |s|)
    else s[k].next == After(h, s, k) && s[k].prev == Behind(h, s, k)
  }

  lemma RingByLinks(h: Node, s: seq<Node>)
    requires h !in s && Distinct(s)
    ensures Ring(h, s) <==> forall k :: -1 <= k < |s| ==> LinksTo(h, s, k)
  {
    if forall k :: -1 <= k < |s| ==> LinksTo(h, s, k) {
      assert LinksTo(h, s, -1);
      forall i | 0 <= i < |s| ensures s[i].next == After(h, s, i) && s[i].prev == Behind(h, s, i) {
        assert LinksTo(h, s, i);
      }
    }
  }

  /** QUEUE_REMOVE of the member at position i; its own links are left dangling. */
  method Remove(q: Node, ghost h: Node, ghost s: seq<Node>, ghost i: nat)
    requires Ring(h, s) && i < |s| && s[i] == q
    modifies q.prev, q.next
    ensures Ring(h, s[..i] + s[i + 1..])
    ensures q.next == old(q.next) && q.prev == old(q.prev)
  {
    assert q.next == After(h, s, i) && q.prev == Behind(h, s, i);
    RingByLinks(h, s);
    q.prev.next := q.next;
    q.next.prev := q.prev;
    ghost var r := Without(s, i);
    WithoutDistinct(h, s, i);
    forall k | -1 <= k < |r| ensures LinksTo(h, r, k) {
      assert old(LinksTo(h, s, if k < i then k else k + 1));
      WithoutNeighbours(h, s, i, k);
      WithoutNeighbours(h, s, i, |r|);
    }
    RingByLinks(h, r);
  }

  lemma ApartJoin(h: Node, s: seq<Node>, n: Node, t: seq<Node>)
    requires Distinct(s) && Distinct(t) && Apart(h, s, n, t)
    ensures Distinct(s + t)
  {
    forall i, j | 0 <= i < |s| && 0 <= j < |t| ensures s[i] != t[j] {
      assert s[i] in s && t[j] in t;
    }
  }

  /** QUEUE_ADD: the nodes behind n move to the end of h's list. */
  method Add(h: Node, n: Node, ghost s: seq<Node>, ghost t: seq<Node>)
    requires Ring(h, s) && Ring(n, t) && Apart(h, s, n, t)
    modifies h, h.prev, n.next, n.prev
    ensures Ring(h, s + t)
  {
    ApartJoin(h, s, n, t);
    assert s + [] == s;
    h.prev.next := n.next;
    n.next.prev := h.prev;
    h.prev := n.prev;
    h.prev.next := h;
  }

  /** QUEUE_SPLIT: everything from the member at position i on moves behind n. */
  method Split(h: Node, q: Node, n: Node, ghost s: seq<Node>, ghost i: nat)
    requires Ring(h, s) && i < |s| && s[i] == q && n != h && n !in s
    modifies h, h.prev, n, q, q.prev
    ensures Ring(h, s[..i]) && Ring(n, s[i..])
  {
    n.prev := h.prev;
    n.prev.next := n;
    n.next := q;
    h.prev := q.prev;
    h.prev.next := h;
    q.prev := n;
  }

  /** QUEUE_MOVE. */
  method Move(h: Node, n: Node, ghost s: seq<Node>)
    requires Ring(h, s) && n != h && n !in s
    modifies h, h.prev, h.next, n
    ensures Ring(h, []) && Ring(n, s)
  {
    QueueEmptyDecides(h, s);
    if QueueEmpty(h) {
      QueueInit(n);
    } else {
      var q := h.next;
      Split(h, q, n, s, 0);
      assert s[..0] == [] && s[0..] == s;
    }
  }

  // ---------- uv_walk ----------

  function Visited(s: seq<Node>, internal: Node -> bool): seq<Node> {
    if s == [] then []
    else (if internal(s[0]) then [] else [s[0]]) + Visited(s[1..], internal)
  }

  /** The walk calls back for every handle of the list that is not internal, once,
      and for nothing else. */
  lemma {:induction false} VisitedExactly(s: seq<Node>, internal: Node -> bool)
    requires Distinct(s)
    ensures Distinct(Visited(s, internal))
    ensures forall x :: x in Visited(s, internal) <==> x in s && !internal(x)
  {
    if s != [] {
      VisitedExactly(s[1..], internal);
      assert forall x :: x in s <==> x == s[0] || x in s[1..];
    }
  }

  /** And in the order of the list: of two handles, the one that comes first is called first. */
  lemma {:induction false} VisitedInOrder(s: seq<Node>, internal: Node -> bool, i: nat, j: nat) returns (k: nat, l: nat)
    requires i < j < |s| && !internal(s[i]) && !internal(s[j])
    ensures k < l < |Visited(s, internal)| && Visited(s, internal)[k] == s[i] && Visited(s, internal)[l] == s[j]
  {
    if i == 0 {
      k := 0;
      l := VisitedAt(s[1..], internal, j - 1);
      l := l + 1;
    } else {
      k, l := VisitedInOrder(s[1..], internal, i - 1, j - 1);
      if !internal(s[0]) {
        k, l := k + 1, l + 1;
      }
    }
  }

  lemma {:induction false} VisitedAt(s: seq<Node>, internal: Node -> bool, j: nat) returns (l: nat)
    requires j < |s| && !internal(s[j])
    ensures l < |Visited(s, internal)| && Visited(s, internal)[l] == s[j]
  {
    if j == 0 {
      l := 0;
    } else {
      l := VisitedAt(s[1..], internal, j - 1);
      if !internal(s[0]) {
        l := l + 1;
      }
    }
  }

  lemma {:induction false} VisitedSnoc(s: seq<Node>, x: Node, internal: Node -> bool)
    ensures Visited(s + [x], internal) == Visited(s, internal) + if internal(x) then [] else [x]
  {
    if s == [] {
      assert [x][1..] == [];
    } else {
      assert (s + [x])[1..] == s[1..] + [x];
      VisitedSnoc(s[1..], x, internal);
    }
  }

  lemma MembersApart(h: Node, s: seq<Node>, h': Node, s': seq<Node>)
    requires Apart(h, s, h', s')
    ensures h != h' && h !in s' && forall x :: x in s ==> x != h' && x !in s'
  {
  }

  lemma FirstApart(h: Node, s: seq<Node>)
    requires Ring(h, s) && s != []
    ensures s[0] != h && s[0] !in s[1..] && s[..0] + s[1..] == s[1..]
    ensures h.next == s[0] && s[0].prev == h && (s[0].next == h || s[0].next in s)
    ensures h.prev == h || h.prev in s
    ensures forall x :: x in s[1..] ==> x in s
  {
    assert s[0].next == After(h, s, 0) && s[0].prev == Behind(h, s, 0);
  }

  lemma LastMember(h: Node, s: seq<Node>)
    requires Ring(h, s)
    ensures h !in s && (h.prev == h || h.prev in s)
  {
  }

  /** The head of one list goes to the tail of another. */
  method MoveHead(from: Node, to: Node, ghost s: seq<Node>, ghost t: seq<Node>) returns (q: Node)
    requires Ring(from, s) && Ring(to, t) && Apart(from, s, to, t) && s != []
    modifies from, from.next, from.next.next, to, to.prev
    ensures q == s[0] && Ring(from, s[1..]) && Ring(to, t + [q])
  {
    hide Ring, Apart, Distinct, After, Behind;
    FirstApart(from, s);
    MembersApart(from, s, to, t);
    LastMember(to, t);
    q := from.next;
    Remove(q, from, s, 0);
    InsertTail(to, q, t);
  }

  lemma PartsApart(h: Node, s: seq<Node>, h': Node, s': seq<Node>)
    requires Distinct(s' + s) && h !in s' + s && h' !in s' + s && h != h'
    ensures Apart(h, s, h', s')
    ensures s != [] ==> (s' + [s[0]]) + s[1..] == s' + s
  {
    assert forall i :: 0 <= i < |s'| ==> (s' + s)[i] == s'[i];
    assert forall i :: 0 <= i < |s| ==> (s' + s)[|s'| + i] == s[i];
  }

  lemma Neighbours(h: Node, s: seq<Node>)
    requires Ring(h, s)
    ensures h.prev == h || h.prev in s
    ensures s != [] ==> h.next == s[0] && h.next in s && (h.next.next == h || h.next.next in s)
  {
    if s != [] {
      assert s[0].next == After(h, s, 0);
    }
  }

  /** uv_walk with a callback that leaves the list alone: the calls made, and the
      handle list as it was. */
  method Walk(handleQueue: Node, internal: Node -> bool, ghost s: seq<Node>) returns (called: seq<Node>)
    requires Ring(handleQueue, s)
    modifies handleQueue, s
    ensures Ring(handleQueue, s)
    ensures called == Visited(s, internal)
  {
    var queue := new Node.Init();
    Move(handleQueue, queue, s);
    called := [];
    ghost var left, done := s, [];
    while !QueueEmpty(queue)
      invariant done + left == s
      invariant Ring(queue, left) && Ring(handleQueue, done)
      invariant called == Visited(done, internal)
      decreases |left|
    {
      QueueEmptyDecides(queue, left);
      PartsApart(queue, left, handleQueue, done);
      Neighbours(queue, left);
      Neighbours(handleQueue, done);
      assert queue.next in done + left && (queue.next.next == queue || queue.next.next in done + left);
      assert handleQueue.prev == handleQueue || handleQueue.prev in done + left;
      var q := MoveHead(queue, handleQueue, left, done);
      VisitedSnoc(done, q, internal);
      done, left := done + [q], left[1..];
      if !internal(q) {
        called := called + [q];
      }
    }
    QueueEmptyDecides(queue, left);
    assert done == s;
  }
}
