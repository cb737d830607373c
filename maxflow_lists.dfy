/**
 * The lists kept by the Boykov-Kolmogorov max-flow solver (maxflow.cpp),
 * as values: node records, the two active queues linked through the
 * nodes' `next` fields, and the orphan list linked through cells of a
 * block allocator. Each list operation is a function on these values and
 * the lemmas below show what it does to the lists they represent. The
 * class in module Maxflow performs the same updates in place.
 *
 * A node pointer is the node's index in the node block, a cell pointer the
 * cell's index in the allocator's arena; NULL is -1.
 */
module MaxflowLists {

  /** The parent of a node: none, the terminal, the orphan mark, or an arc. */
  datatype Parent = NoParent | Terminal | Orphan | Arc(arc: nat)

  /**
   * The fields of a node that the list code touches; `next` is the
   * successor in the active list, -1 when the node is not listed.
   */
  datatype NodeRec = NodeRec(
    next: int,
    parent: Parent,
    isSink: bool,
    dist: int,
    ts: int,
    isMarked: bool,
    inChanged: bool,
    trCap: int)

  /** A cell of the orphan list: the orphan node and the next cell (-1 for none). */
  datatype OrphanCell = OrphanCell(ptr: nat, next: int)

  predicate Distinct<T(==)>(s: seq<T>) {
    forall a, b :: 0 <= a < b < |s| ==> s[a] != s[b]
  }

  predicate Disjoint<T(==)>(s: seq<T>, t: seq<T>) {
    forall a, b :: 0 <= a < |s| && 0 <= b < |t| ==> s[a] != t[b]
  }

  // ---------------------------------------------------------------------
  // The active list
  // ---------------------------------------------------------------------

  /** The node block with the heads and tails of the two active queues. */
  datatype ActiveList = ActiveList(ns: seq<NodeRec>, first0: int, last0: int, first1: int, last1: int)

  /**
   * `q` is the queue from `first` to `last`: each element links to the
   * next, the last one to itself, and first/last are NULL exactly when
   * the queue is empty.
   */
  ghost predicate Chain(ns: seq<NodeRec>, first: int, last: int, q: seq<nat>) {
    (q == [] <==> first == -1) && (q == [] ==> last == -1) &&
    (q != [] ==> first == q[0] && last == q[|q| - 1]) &&
    (forall k :: 0 <= k < |q| ==> q[k] < |ns|) &&
    (forall k :: 0 <= k < |q| - 1 ==> ns[q[k]].next == q[k + 1]) &&
    (q != [] ==> ns[q[|q| - 1]].next == q[|q| - 1])
  }

  /** `s` holds queue 0 as `q0` and queue 1 as `q1`, and no node is queued twice. */
  ghost predicate Represents(s: ActiveList, q0: seq<nat>, q1: seq<nat>) {
    match s
    case ActiveList(ns, first0, last0, first1, last1) =>
      Chain(ns, first0, last0, q0) && Chain(ns, first1, last1, q1) &&
      Distinct(q0) && Distinct(q1) && Disjoint(q0, q1)
  }

  /** The list invariant of maxflow.cpp:19-23: a node is listed iff its `next` is not NULL. */
  ghost predicate ListedIff(ns: seq<NodeRec>, q0: seq<nat>, q1: seq<nat>) {
    forall x :: 0 <= x < |ns| ==> (ns[x].next != -1 <==> x in q0 || x in q1)
  }

  /** Every queued node has a successor, so a node whose `next` is NULL is in no queue. */
  lemma {:induction false} ChainedHaveNext(ns: seq<NodeRec>, first: int, last: int, q: seq<nat>, x: nat)
    requires Chain(ns, first, last, q) && x in q
    ensures ns[x].next != -1
  {
    var k :| 0 <= k < |q| && q[k] == x;
    if k < |q| - 1 {
      assert ns[q[k]].next == q[k + 1];
    }
  }

  /** Changing nodes without touching the links of queued ones keeps both queues. */
  lemma {:induction false} RepresentsFrame(s: ActiveList, ns': seq<NodeRec>, q0: seq<nat>, q1: seq<nat>)
    requires Represents(s, q0, q1) && |ns'| == |s.ns|
    requires forall k :: 0 <= k < |q0| ==> ns'[q0[k]].next == s.ns[q0[k]].next
    requires forall k :: 0 <= k < |q1| ==> ns'[q1[k]].next == s.ns[q1[k]].next
    ensures Represents(s.(ns := ns'), q0, q1)
  {
    assert forall k :: 0 <= k < |q0| - 1 ==> ns'[q0[k]].next == s.ns[q0[k]].next;
    assert forall k :: 0 <= k < |q1| - 1 ==> ns'[q1[k]].next == s.ns[q1[k]].next;
  }

  /** Changing fields other than the links keeps the queues and the list invariant. */
  lemma SameLinks(s: ActiveList, ns': seq<NodeRec>, q0: seq<nat>, q1: seq<nat>)
    requires Represents(s, q0, q1) && |ns'| == |s.ns|
    requires forall x :: 0 <= x < |ns'| ==> ns'[x].next == s.ns[x].next
    ensures Represents(s.(ns := ns'), q0, q1)
    ensures ListedIff(s.ns, q0, q1) ==> ListedIff(ns', q0, q1)
  {
    RepresentsFrame(s, ns', q0, q1);
  }

  /** Lines 39-42 of `set_active`: link `i` after the tail of queue 1 and to itself. */
  function Link(s: ActiveList, i: nat): (t: ActiveList)
    requires i < |s.ns| && -1 <= s.last1 < |s.ns|
    ensures |t.ns| == |s.ns| && t.first0 == s.first0 && t.last0 == s.last0 && t.last1 == i
    ensures forall x :: 0 <= x < |s.ns| ==> t.ns[x] == s.ns[x].(next := t.ns[x].next)
    ensures forall x :: 0 <= x < |s.ns| && x != i && x != s.last1 ==> t.ns[x] == s.ns[x]
    ensures t.ns[i].next == i && (s.last1 != -1 && s.last1 != i ==> t.ns[s.last1].next == i)
  {
    var linked := if s.last1 != -1 then s.ns[s.last1 := s.ns[s.last1].(next := i)] else s.ns;
    ActiveList(linked[i := linked[i].(next := i)], s.first0, s.last0, if s.last1 != -1 then s.first1 else i, i)
  }

  /** `set_active(i)`: only a node whose `next` is NULL is linked in. */
  function SetActive(s: ActiveList, i: nat): ActiveList
    requires i < |s.ns| && -1 <= s.last1 < |s.ns|
  {
    if s.ns[i].next != -1 then s else Link(s, i)
  }

  lemma {:induction false} LinkExtendsQueue1(s: ActiveList, q0: seq<nat>, q1: seq<nat>, i: nat)
    requires Represents(s, q0, q1) && i < |s.ns| && i !in q0 && i !in q1
    ensures Chain(Link(s, i).ns, Link(s, i).first1, Link(s, i).last1, q1 + [i])
  {
    var t := Link(s, i);
    var q := q1 + [i];
    forall k | 0 <= k < |q| - 1
      ensures t.ns[q[k]].next == q[k + 1]
    {
      if k < |q1| - 1 {
        assert q1[k] != s.last1 && q1[k] != i;
      }
    }
  }

  lemma {:induction false} LinkKeepsQueue0(s: ActiveList, q0: seq<nat>, q1: seq<nat>, i: nat)
    requires Represents(s, q0, q1) && i < |s.ns| && i !in q0
    ensures Chain(Link(s, i).ns, Link(s, i).first0, Link(s, i).last0, q0)
  {
    var t := Link(s, i);
    forall k | 0 <= k < |q0|
      ensures t.ns[q0[k]] == s.ns[q0[k]]
    {
      if s.last1 != -1 {
        assert q0[k] != q1[|q1| - 1];
      }
    }
    assert forall k :: 0 <= k < |q0| - 1 ==> t.ns[q0[k]].next == s.ns[q0[k]].next;
  }

  /**
   * `set_active(i)` on a node whose `next` is NULL appends it to queue 1
   * and keeps the list invariant; on any other node it changes nothing.
   */
  lemma SetActiveAppends(s: ActiveList, q0: seq<nat>, q1: seq<nat>, i: nat)
    requires Represents(s, q0, q1) && i < |s.ns|
    ensures -1 <= s.last1 < |s.ns|
    ensures s.ns[i].next != -1 ==> SetActive(s, i) == s
    ensures s.ns[i].next == -1 ==> Represents(SetActive(s, i), q0, q1 + [i])
    ensures s.ns[i].next == -1 && ListedIff(s.ns, q0, q1) ==> ListedIff(SetActive(s, i).ns, q0, q1 + [i])
  {
    if s.ns[i].next == -1 {
      if i in q0 {
        ChainedHaveNext(s.ns, s.first0, s.last0, q0, i);
      }
      if i in q1 {
        ChainedHaveNext(s.ns, s.first1, s.last1, q1, i);
      }
      LinkExtendsQueue1(s, q0, q1, i);
      LinkKeepsQueue0(s, q0, q1, i);
      var q := q1 + [i];
      assert Distinct(q);
      assert Disjoint(q0, q);
      if ListedIff(s.ns, q0, q1) {
        var t := Link(s, i);
        forall x | 0 <= x < |t.ns|
          ensures t.ns[x].next != -1 <==> x in q0 || x in q
        {
          if x == s.last1 && s.last1 != -1 {
            assert x in q1;
          }
        }
      }
    }
  }

  /** Lines 68-70 of `next_active`: unlink the front of queue 0 and clear its `next`. */
  function Pop0(s: ActiveList): (t: ActiveList)
    requires 0 <= s.first0 < |s.ns|
  {
    var i := s.first0;
    var n := s.ns[i].next;
    ActiveList(s.ns[i := s.ns[i].(next := -1)], if n == i then -1 else n, if n == i then -1 else s.last0, s.first1, s.last1)
  }

  /** Unlinking the front of queue 0 removes exactly that node from the queues. */
  lemma Pop0Removes(s: ActiveList, q0: seq<nat>, q1: seq<nat>)
    requires Represents(s, q0, q1) && q0 != []
    ensures s.first0 == q0[0] && 0 <= s.first0 < |s.ns|
    ensures Represents(Pop0(s), q0[1..], q1)
  {
    var i := q0[0];
    var t := Pop0(s);
    if |q0| > 1 {
      assert s.ns[i].next == q0[1] != i;
    }
    var r := q0[1..];
    forall k | 0 <= k < |r|
      ensures t.ns[r[k]] == s.ns[r[k]]
    {
      assert r[k] == q0[k + 1] != q0[0];
    }
    assert forall k :: 0 <= k < |r| - 1 ==> t.ns[r[k]].next == s.ns[r[k]].next;
    forall k | 0 <= k < |q1|
      ensures t.ns[q1[k]] == s.ns[q1[k]]
    {
      assert q1[k] != q0[0];
    }
    assert forall k :: 0 <= k < |q1| - 1 ==> t.ns[q1[k]].next == s.ns[q1[k]].next;
  }

  /** The node taken off queue 0 is unlinked, so the list invariant survives the pop. */
  lemma Pop0KeepsListed(s: ActiveList, q0: seq<nat>, q1: seq<nat>)
    requires Represents(s, q0, q1) && q0 != []
    ensures 0 <= s.first0 < |s.ns|
    ensures ListedIff(s.ns, q0, q1) ==> ListedIff(Pop0(s).ns, q0[1..], q1)
  {
    var i := q0[0];
    var t := Pop0(s);
    var r := q0[1..];
    forall x | 0 <= x < |t.ns| && ListedIff(s.ns, q0, q1)
      ensures t.ns[x].next != -1 <==> x in r || x in q1
    {
      if x == i {
        assert forall k :: 0 <= k < |r| ==> r[k] == q0[k + 1] != q0[0];
        assert forall k :: 0 <= k < |q1| ==> q1[k] != q0[0];
      } else {
        assert x in q0 <==> x in r by {
          if x in q0 {
            var k :| 0 <= k < |q0| && q0[k] == x;
            assert r[k - 1] == x;
          }
        }
      }
    }
  }

  /** Lines 58-63 of `next_active`: an empty queue 0 takes over queue 1, which becomes empty. */
  function TakeOver(s: ActiveList): ActiveList {
    ActiveList(s.ns, s.first1, s.last1, -1, -1)
  }

  lemma TakeOverMoves(s: ActiveList, q1: seq<nat>)
    requires Represents(s, [], q1)
    ensures Represents(TakeOver(s), q1, [])
    ensures ListedIff(s.ns, [], q1) ==> ListedIff(TakeOver(s).ns, q1, [])
  {
  }

  /** Every queued node is a node of the block. */
  lemma QueuedNodes(s: ActiveList, q0: seq<nat>, q1: seq<nat>)
    requires Represents(s, q0, q1)
    ensures forall k :: 0 <= k < |q0 + q1| ==> (q0 + q1)[k] < |s.ns|
  {
  }

  /** The position in `l` of the first node with a parent, or `|l|` when there is none. */
  function FirstWithParent(l: seq<nat>, ns: seq<NodeRec>): (p: nat)
    requires forall k :: 0 <= k < |l| ==> l[k] < |ns|
    ensures p <= |l|
    ensures forall k :: 0 <= k < p ==> ns[l[k]].parent == NoParent
    ensures p < |l| ==> ns[l[p]].parent != NoParent
  {
    if l == [] then 0
    else if ns[l[0]].parent != NoParent then 0
    else 1 + FirstWithParent(l[1..], ns)
  }

  /** The records `ns` with the `next` of every node in `xs` cleared, one after the other. */
  function ClearNext(ns: seq<NodeRec>, xs: seq<nat>): (r: seq<NodeRec>)
    ensures |r| == |ns|
    decreases |xs|
  {
    if xs == [] then ns
    else
      var c := ClearNext(ns, xs[..|xs| - 1]);
      var x := xs[|xs| - 1];
      if x < |c| then c[x := c[x].(next := -1)] else c
  }

  /** Clearing touches exactly the listed nodes, and only their `next`. */
  lemma {:induction false} ClearNextAt(ns: seq<NodeRec>, xs: seq<nat>, x: nat)
    requires x < |ns|
    ensures ClearNext(ns, xs)[x] == if x in xs then ns[x].(next := -1) else ns[x]
    decreases |xs|
  {
    if xs != [] {
      var init := xs[..|xs| - 1];
      ClearNextAt(ns, init, x);
      assert xs == init + [xs[|xs| - 1]];
      assert x in xs <==> x in init || x == xs[|xs| - 1];
    }
  }

  /**
   * What `next_active` leaves behind when it starts from queues `q0` and
   * `q1` over nodes `ns`: it takes nodes off the front of `q0 + q1` up to
   * and including the first one with a parent, which it returns (-1 when
   * there is none), clears the `next` of every node it took, and empties
   * queue 1 exactly when it had to go past the end of queue 0.
   */
  ghost predicate NextActiveResult(q0: seq<nat>, q1: seq<nat>, ns: seq<NodeRec>,
                                   r: int, q0': seq<nat>, q1': seq<nat>, ns': seq<NodeRec>)
  {
    var l := q0 + q1;
    (forall k :: 0 <= k < |l| ==> l[k] < |ns|) &&
    var p := FirstWithParent(l, ns);
    var taken := if p < |l| then p + 1 else p;
    r == (if p < |l| then l[p] else -1) &&
    q0' + q1' == l[taken..] &&
    (p < |q0| ==> q1' == q1) &&
    (p >= |q0| ==> q1' == []) &&
    ns' == ClearNext(ns, l[..taken])
  }

  /**
   * `next_active` returns NULL exactly when no queued node has a parent,
   * and then both queues are empty and every queued node is unlinked.
   */
  lemma NextActiveReturnsNull(q0: seq<nat>, q1: seq<nat>, ns: seq<NodeRec>,
                              r: int, q0': seq<nat>, q1': seq<nat>, ns': seq<NodeRec>)
    requires NextActiveResult(q0, q1, ns, r, q0', q1', ns')
    ensures |ns'| == |ns|
    ensures r == -1 <==> forall k :: 0 <= k < |q0 + q1| ==> ns[(q0 + q1)[k]].parent == NoParent
    ensures r == -1 ==> q0' == [] && q1' == [] &&
                        forall x :: 0 <= x < |ns| ==> ns'[x] == if x in q0 + q1 then ns[x].(next := -1) else ns[x]
  {
    var l := q0 + q1;
    var p := FirstWithParent(l, ns);
    if p == |l| {
      NextActiveNone(l, ns, q0' + q1', ns');
      assert q0' == [] && q1' == [];
    } else {
      NextActiveFound(l, ns, p, q0' + q1', ns');
      assert ns[l[p]].parent != NoParent;
    }
  }

  /**
   * Otherwise `next_active` returns a node with a parent, every node
   * queued before it had none, and exactly the nodes up to it are unlinked.
   */
  lemma NextActiveReturnsNode(q0: seq<nat>, q1: seq<nat>, ns: seq<NodeRec>,
                              r: int, q0': seq<nat>, q1': seq<nat>, ns': seq<NodeRec>)
    requires NextActiveResult(q0, q1, ns, r, q0', q1', ns')
    requires r != -1
    ensures 0 <= r < |ns| && ns[r].parent != NoParent
    ensures exists p :: 0 <= p < |q0 + q1| && (q0 + q1)[p] == r && (q0 + q1)[p + 1..] == q0' + q1' &&
                        (forall k :: 0 <= k < p ==> ns[(q0 + q1)[k]].parent == NoParent) &&
                        forall x :: 0 <= x < |ns| ==> ns'[x] == if x in (q0 + q1)[..p + 1] then ns[x].(next := -1) else ns[x]
  {
    var l := q0 + q1;
    NextActiveFoundAt(l, ns, FirstWithParent(l, ns), r, q0' + q1', ns');
  }

  /** No queued node has a parent: the scan takes every node. */
  lemma NextActiveNone(l: seq<nat>, ns: seq<NodeRec>, rest: seq<nat>, ns': seq<NodeRec>)
    requires forall k :: 0 <= k < |l| ==> l[k] < |ns|
    requires FirstWithParent(l, ns) == |l| && rest == l[|l|..] && ns' == ClearNext(ns, l[..|l|])
    ensures rest == [] && |ns'| == |ns|
    ensures forall k :: 0 <= k < |l| ==> ns[l[k]].parent == NoParent
    ensures forall x :: 0 <= x < |ns| ==> ns'[x] == if x in l then ns[x].(next := -1) else ns[x]
  {
    assert l[..|l|] == l;
    ClearedPrefix(ns, l, ns');
  }

  /** Node `p` is the first queued node with a parent: the scan takes the nodes up to it. */
  lemma NextActiveFound(l: seq<nat>, ns: seq<NodeRec>, p: nat, rest: seq<nat>, ns': seq<NodeRec>)
    requires forall k :: 0 <= k < |l| ==> l[k] < |ns|
    requires p == FirstWithParent(l, ns) < |l| && rest == l[p + 1..] && ns' == ClearNext(ns, l[..p + 1])
    ensures |ns'| == |ns| && l[p] < |ns| && ns[l[p]].parent != NoParent
    ensures forall k :: 0 <= k < p ==> ns[l[k]].parent == NoParent
    ensures forall x :: 0 <= x < |ns| ==> ns'[x] == if x in l[..p + 1] then ns[x].(next := -1) else ns[x]
  {
    ClearedPrefix(ns, l[..p + 1], ns');
  }

  /** `NextActiveFound` with the node returned given by name. */
  lemma NextActiveFoundAt(l: seq<nat>, ns: seq<NodeRec>, p: nat, r: int, rest: seq<nat>, ns': seq<NodeRec>)
    requires forall k :: 0 <= k < |l| ==> l[k] < |ns|
    requires p == FirstWithParent(l, ns) < |l| && r == l[p] && rest == l[p + 1..] && ns' == ClearNext(ns, l[..p + 1])
    ensures 0 <= r < |ns| && ns[r].parent != NoParent
    ensures exists p :: 0 <= p < |l| && l[p] == r && l[p + 1..] == rest &&
                        (forall k :: 0 <= k < p ==> ns[l[k]].parent == NoParent) &&
                        forall x :: 0 <= x < |ns| ==> ns'[x] == if x in l[..p + 1] then ns[x].(next := -1) else ns[x]
  {
    NextActiveFound(l, ns, p, rest, ns');
  }

  /** `ClearNext` over a whole prefix, node by node. */
  lemma ClearedPrefix(ns: seq<NodeRec>, xs: seq<nat>, ns': seq<NodeRec>)
    requires ns' == ClearNext(ns, xs)
    ensures |ns'| == |ns|
    ensures forall x :: 0 <= x < |ns| ==> ns'[x] == if x in xs then ns[x].(next := -1) else ns[x]
  {
    forall x | 0 <= x < |ns|
      ensures ns'[x] == if x in xs then ns[x].(next := -1) else ns[x]
    {
      ClearNextAt(ns, xs, x);
    }
  }

  /** Distinct, disjoint queues concatenate to a queue without repeats. */
  lemma ConcatDistinct(q0: seq<nat>, q1: seq<nat>)
    requires Distinct(q0) && Distinct(q1) && Disjoint(q0, q1)
    ensures Distinct(q0 + q1)
  {
    var l := q0 + q1;
    forall a, b | 0 <= a < b < |l|
      ensures l[a] != l[b]
    {
      if b < |q0| {
        assert l[a] == q0[a] && l[b] == q0[b];
      } else if a >= |q0| {
        assert l[a] == q1[a - |q0|] && l[b] == q1[b - |q0|];
      } else {
        assert l[a] == q0[a] && l[b] == q1[b - |q0|];
      }
    }
  }

  /**
   * `next_active` keeps the list invariant of maxflow.cpp:19-23: the
   * nodes it takes are unlinked and leave the queues, the others keep
   * both their `next` and their place.
   */
  lemma NextActiveKeepsListed(q0: seq<nat>, q1: seq<nat>, ns: seq<NodeRec>,
                              r: int, q0': seq<nat>, q1': seq<nat>, ns': seq<NodeRec>)
    requires Distinct(q0) && Distinct(q1) && Disjoint(q0, q1) && ListedIff(ns, q0, q1)
    requires NextActiveResult(q0, q1, ns, r, q0', q1', ns')
    ensures ListedIff(ns', q0', q1')
  {
    var l := q0 + q1;
    var p := FirstWithParent(l, ns);
    var taken := if p < |l| then p + 1 else p;
    ConcatDistinct(q0, q1);
    forall x | 0 <= x < |ns'|
      ensures ns'[x].next != -1 <==> x in q0' || x in q1'
    {
      assert x in l <==> x in q0 || x in q1;
      ListedAfterTaking(l, taken, ns, ns', q0' + q1', x);
    }
  }

  /** A node is listed after the scan exactly when it was listed and not taken. */
  lemma ListedAfterTaking(l: seq<nat>, taken: nat, ns: seq<NodeRec>, ns': seq<NodeRec>, rest: seq<nat>, x: nat)
    requires Distinct(l) && taken <= |l| && rest == l[taken..] && ns' == ClearNext(ns, l[..taken])
    requires x < |ns| && (ns[x].next != -1 <==> x in l)
    ensures x < |ns'| && (ns'[x].next != -1 <==> x in rest)
  {
    ClearNextAt(ns, l[..taken], x);
    assert l == l[..taken] + rest;
    if x in l[..taken] {
      var a :| 0 <= a < taken && l[a] == x;
      assert forall b :: 0 <= b < |rest| ==> rest[b] == l[taken + b] != x;
    }
  }

  /**
   * The state of `next_active` after taking `j` nodes off the front of
   * `q0 + q1`: the queues `a` and `b` hold the rest, none of the nodes
   * taken has a parent, queue 1 is untouched until queue 0 runs out, and
   * exactly the taken nodes are unlinked.
   */
  ghost predicate Scanned(q0: seq<nat>, q1: seq<nat>, ns: seq<NodeRec>, j: nat,
                          a: seq<nat>, b: seq<nat>, cur: seq<NodeRec>)
  {
    var l := q0 + q1;
    (forall k :: 0 <= k < |l| ==> l[k] < |ns|) &&
    j <= |l| && a + b == l[j..] &&
    FirstWithParent(l, ns) == j + FirstWithParent(l[j..], ns) &&
    (j < |q0| ==> b == q1) &&
    (j == |q0| ==> b == q1 || b == []) &&
    (j > |q0| ==> b == []) &&
    cur == ClearNext(ns, l[..j])
  }

  /** Nothing is taken at the start. */
  lemma ScanStart(q0: seq<nat>, q1: seq<nat>, ns: seq<NodeRec>)
    requires forall k :: 0 <= k < |q0| ==> q0[k] < |ns|
    requires forall k :: 0 <= k < |q1| ==> q1[k] < |ns|
    ensures Scanned(q0, q1, ns, 0, q0, q1, ns)
  {
    var l := q0 + q1;
    assert l[0..] == l && l[..0] == [];
  }

  /** An empty queue 0 taking over queue 1 leaves the rest of the scan as it was. */
  lemma ScanTakeOver(q0: seq<nat>, q1: seq<nat>, ns: seq<NodeRec>, j: nat, b: seq<nat>, cur: seq<NodeRec>)
    requires Scanned(q0, q1, ns, j, [], b, cur)
    ensures Scanned(q0, q1, ns, j, b, [], cur)
  {
    assert [] + b == b + [];
  }

  /** With both queues used up, `next_active` returns NULL. */
  lemma ScanEmpty(q0: seq<nat>, q1: seq<nat>, ns: seq<NodeRec>, j: nat, cur: seq<NodeRec>)
    requires Scanned(q0, q1, ns, j, [], [], cur)
    ensures NextActiveResult(q0, q1, ns, -1, [], [], cur)
  {
    var l := q0 + q1;
    assert j == |l| && l[..j] == l[..|l|];
  }

  /**
   * Taking the front node `i` of queue `a`: if it has a parent
   * `next_active` returns it, otherwise the scan goes on one node further.
   */
  lemma ScanPop(q0: seq<nat>, q1: seq<nat>, ns: seq<NodeRec>, j: nat, a: seq<nat>, b: seq<nat>, cur: seq<NodeRec>,
                i: nat, cur': seq<NodeRec>)
    requires Scanned(q0, q1, ns, j, a, b, cur) && a != [] && i == a[0]
    requires i < |cur| && cur' == cur[i := cur[i].(next := -1)]
    ensures cur'[i].parent != NoParent ==> NextActiveResult(q0, q1, ns, i, a[1..], b, cur')
    ensures cur'[i].parent == NoParent ==> Scanned(q0, q1, ns, j + 1, a[1..], b, cur')
  {
    var l := q0 + q1;
    ScanPopFacts(l, j, a, b);
    ClearNextAt(ns, l[..j], l[j]);
    assert cur' == ClearNext(ns, l[..j + 1]);
    if cur'[i].parent != NoParent {
      ScanPopFound(q0, q1, ns, j, a, b, cur');
    }
  }

  /** The sequence facts behind `ScanPop`: the front of `a` is node `j` of `l`, and the rest follows it. */
  lemma ScanPopFacts(l: seq<nat>, j: nat, a: seq<nat>, b: seq<nat>)
    requires j <= |l| && a + b == l[j..] && a != []
    ensures j < |l| && l[j] == a[0] && a[1..] + b == l[j + 1..]
    ensures l[..j + 1][..j] == l[..j] && l[..j + 1] == l[..j] + [l[j]]
  {
    assert (a + b)[1..] == a[1..] + b;
    assert l[j..][1..] == l[j + 1..];
  }

  /** Node `j` of the scan has a parent: `next_active` returns it. */
  lemma ScanPopFound(q0: seq<nat>, q1: seq<nat>, ns: seq<NodeRec>, j: nat, a: seq<nat>, b: seq<nat>, cur': seq<NodeRec>)
    requires var l := q0 + q1;
      (forall k :: 0 <= k < |l| ==> l[k] < |ns|) &&
      j < |l| && a != [] && l[j] == a[0] && a[1..] + b == l[j + 1..] &&
      FirstWithParent(l, ns) == j + FirstWithParent(l[j..], ns) &&
      (j < |q0| ==> b == q1) && (j == |q0| ==> b == q1 || b == []) && (j > |q0| ==> b == []) &&
      cur' == ClearNext(ns, l[..j + 1]) && ns[l[j]].parent != NoParent
    ensures NextActiveResult(q0, q1, ns, a[0], a[1..], b, cur')
  {
    var l := q0 + q1;
    assert FirstWithParent(l, ns) == j by {
      assert l[j..][0] == l[j];
    }
    assert |a| + |b| == |q0| + |q1| - j by {
      assert |a[1..] + b| == |l[j + 1..]|;
    }
    TailQueueSide(q0, q1, j, a, b);
    NextActiveResultAt(q0, q1, ns, j, a[0], a[1..], b, cur');
  }

  /** `next_active` stopping at position `p`, the first node with a parent, meets its description. */
  lemma NextActiveResultAt(q0: seq<nat>, q1: seq<nat>, ns: seq<NodeRec>, p: nat,
                           r: int, q0': seq<nat>, q1': seq<nat>, ns': seq<NodeRec>)
    requires forall k :: 0 <= k < |q0 + q1| ==> (q0 + q1)[k] < |ns|
    requires p == FirstWithParent(q0 + q1, ns) && p < |q0 + q1|
    requires r == (q0 + q1)[p] && q0' + q1' == (q0 + q1)[p + 1..]
    requires (p < |q0| ==> q1' == q1) && (p >= |q0| ==> q1' == [])
    requires ns' == ClearNext(ns, (q0 + q1)[..p + 1])
    ensures NextActiveResult(q0, q1, ns, r, q0', q1', ns')
  {
  }

  /** A non-empty front taken from position `j` leaves queue 1 whole only when `j` is in queue 0. */
  lemma TailQueueSide(q0: seq<nat>, q1: seq<nat>, j: nat, a: seq<nat>, b: seq<nat>)
    requires a != [] && |a| + |b| == |q0| + |q1| - j
    requires (j < |q0| ==> b == q1) && (j == |q0| ==> b == q1 || b == []) && (j > |q0| ==> b == [])
    ensures (j < |q0| ==> b == q1) && (j >= |q0| ==> b == [])
  {
    if j == |q0| {
      assert |b| < |q1|;
    }
  }

  // ---------------------------------------------------------------------
  // The changed list
  // ---------------------------------------------------------------------

  /** The changed list records each node once, and every recorded node is flagged. */
  predicate ChangedOk(changed: seq<nat>, ns: seq<NodeRec>) {
    Distinct(changed) &&
    forall k :: 0 <= k < |changed| ==> changed[k] < |ns| && ns[changed[k]].inChanged
  }

  /** Recording an unflagged node and flagging it keeps the changed list without repeats. */
  lemma RecordChanged(changed: seq<nat>, ns: seq<NodeRec>, i: nat)
    requires ChangedOk(changed, ns) && i < |ns| && !ns[i].inChanged
    ensures i !in changed
    ensures ChangedOk(changed + [i], ns[i := ns[i].(inChanged := true)])
  {
    assert forall k :: 0 <= k < |changed| ==> changed[k] != i;
  }

  // ---------------------------------------------------------------------
  // maxflow_init
  // ---------------------------------------------------------------------

  /** What `maxflow_init` makes of a node, apart from its list link. */
  function InitNode(n: NodeRec): (m: NodeRec)
    ensures m.next == -1 && m.ts == 0 && !m.isMarked && !m.inChanged && m.trCap == n.trCap
    ensures m.parent == Terminal <==> n.trCap != 0
    ensures m.parent == NoParent <==> n.trCap == 0
    ensures n.trCap > 0 ==> !m.isSink && m.dist == 1
    ensures n.trCap < 0 ==> m.isSink && m.dist == 1
    ensures n.trCap == 0 ==> m.isSink == n.isSink && m.dist == n.dist
  {
    var reset := n.(next := -1, isMarked := false, inChanged := false, ts := 0);
    if n.trCap > 0 then reset.(isSink := false, parent := Terminal, dist := 1)
    else if n.trCap < 0 then reset.(isSink := true, parent := Terminal, dist := 1)
    else reset.(parent := NoParent)
  }

  /** Replacing a node that is not queued keeps both queues. */
  lemma ReplaceUnqueued(s: ActiveList, q0: seq<nat>, q1: seq<nat>, j: nat, n: NodeRec)
    requires Represents(s, q0, q1) && j < |s.ns|
    requires s.ns[j].next == -1 || (j !in q0 && j !in q1)
    ensures j !in q0 && j !in q1
    ensures Represents(s.(ns := s.ns[j := n]), q0, q1)
  {
    if j in q0 {
      ChainedHaveNext(s.ns, s.first0, s.last0, q0, j);
    }
    if j in q1 {
      ChainedHaveNext(s.ns, s.first1, s.last1, q1, j);
    }
    assert forall k :: 0 <= k < |q0| ==> q0[k] != j;
    assert forall k :: 0 <= k < |q1| ==> q1[k] != j;
    RepresentsFrame(s, s.ns[j := n], q0, q1);
  }

  /** The nodes among the first `j` with a terminal capacity, in index order. */
  function TerminalNodes(ns: seq<NodeRec>, j: nat): (r: seq<nat>)
    requires j <= |ns|
    ensures |r| <= j
  {
    if j == 0 then []
    else TerminalNodes(ns, j - 1) + (if ns[j - 1].trCap != 0 then [j - 1] else [])
  }

  /** The terminal nodes found among the first `j` lie below `j`, have a terminal capacity, and ascend. */
  lemma {:induction false} TerminalNodesOrdered(ns: seq<NodeRec>, j: nat)
    requires j <= |ns|
    ensures forall k :: 0 <= k < |TerminalNodes(ns, j)| ==>
              TerminalNodes(ns, j)[k] < j && ns[TerminalNodes(ns, j)[k]].trCap != 0
    ensures forall a, b :: 0 <= a < b < |TerminalNodes(ns, j)| ==> TerminalNodes(ns, j)[a] < TerminalNodes(ns, j)[b]
  {
    if j > 0 {
      TerminalNodesOrdered(ns, j - 1);
      var p, r := TerminalNodes(ns, j - 1), TerminalNodes(ns, j);
      assert forall k :: 0 <= k < |p| ==> r[k] == p[k];
    }
  }

  /** A node below `j` is among the terminal nodes exactly when it has a terminal capacity. */
  lemma {:induction false} TerminalNodesMember(ns: seq<NodeRec>, j: nat, x: nat)
    requires x < j <= |ns|
    ensures x in TerminalNodes(ns, j) <==> ns[x].trCap != 0
  {
    var r := TerminalNodes(ns, j);
    TerminalNodesOrdered(ns, j);
    if x in r {
      var k :| 0 <= k < |r| && r[k] == x;
    }
    if x < j - 1 {
      TerminalNodesMember(ns, j - 1, x);
    }
  }

  /** Node `j` is not among the terminal nodes found before it. */
  lemma TerminalNodesBelow(ns: seq<NodeRec>, j: nat)
    requires j < |ns|
    ensures j !in TerminalNodes(ns, j)
    ensures TerminalNodes(ns, j + 1) == TerminalNodes(ns, j) + (if ns[j].trCap != 0 then [j] else [])
  {
    TerminalNodesOrdered(ns, j);
  }

  /** One pass of the loop of `maxflow_init`: node `j` is reset and, with a terminal capacity, made active. */
  function InitStep(s: ActiveList, j: nat): (t: ActiveList)
    requires j < |s.ns| && -1 <= s.last1 < |s.ns|
    ensures |t.ns| == |s.ns| && (t.last1 == s.last1 || t.last1 == j)
  {
    var r := s.(ns := s.ns[j := InitNode(s.ns[j])]);
    if s.ns[j].trCap != 0 then SetActive(r, j) else r
  }

  /** What one pass does to the nodes: `j` is initialised, and only the old tail of queue 1 is relinked. */
  lemma InitStepNodes(s: ActiveList, j: nat)
    requires j < |s.ns| && -1 <= s.last1 < |s.ns| && s.last1 != j
    requires s.last1 != -1 ==> s.ns[s.last1].next != -1
    ensures |InitStep(s, j).ns| == |s.ns|
    ensures InitStep(s, j).ns[j].(next := -1) == InitNode(s.ns[j])
    ensures InitStep(s, j).ns[j].next != -1 <==> s.ns[j].trCap != 0
    ensures forall x :: 0 <= x < |s.ns| && x != j ==> InitStep(s, j).ns[x].(next := -1) == s.ns[x].(next := -1)
    ensures forall x :: 0 <= x < |s.ns| && x != j && x != s.last1 ==> InitStep(s, j).ns[x] == s.ns[x]
    ensures forall x :: 0 <= x < |s.ns| && x != j ==> (InitStep(s, j).ns[x].next != -1 <==> s.ns[x].next != -1)
  {
  }

  /** A pass on a node that is not queued appends it to queue 1 exactly when it has a terminal capacity. */
  lemma InitStepQueues(s: ActiveList, q1: seq<nat>, j: nat)
    requires Represents(s, [], q1) && j < |s.ns| && j !in q1
    ensures -1 <= s.last1 < |s.ns|
    ensures Represents(InitStep(s, j), [], q1 + (if s.ns[j].trCap != 0 then [j] else []))
  {
    var n := InitNode(s.ns[j]);
    ReplaceUnqueued(s, [], q1, j, n);
    if s.ns[j].trCap != 0 {
      SetActiveAppends(s.(ns := s.ns[j := n]), [], q1, j);
    }
  }

  /** `InitStepQueues` with the state and queue after the pass given by name. */
  lemma InitStepQueuesAt(s: ActiveList, q1: seq<nat>, j: nat, t: ActiveList, q1': seq<nat>)
    requires Represents(s, [], q1) && j < |s.ns| && j !in q1
    requires -1 <= s.last1 < |s.ns| && t == InitStep(s, j)
    requires q1' == q1 + (if s.ns[j].trCap != 0 then [j] else [])
    ensures Represents(t, [], q1')
  {
    InitStepQueues(s, q1, j);
  }

  /** The state after the first `j` passes of the loop of `maxflow_init` over nodes `ns0`. */
  function InitRun(ns0: seq<NodeRec>, j: nat): (s: ActiveList)
    requires j <= |ns0|
    ensures |s.ns| == |ns0| && -1 <= s.last1 < j
  {
    if j == 0 then ActiveList(ns0, -1, -1, -1, -1) else InitStep(InitRun(ns0, j - 1), j - 1)
  }

  /** After `j` passes, queue 0 is empty and queue 1 holds the terminal nodes among the first `j`, in index order. */
  lemma {:induction false} InitRunQueues(ns0: seq<NodeRec>, j: nat)
    requires j <= |ns0|
    ensures Represents(InitRun(ns0, j), [], TerminalNodes(ns0, j))
    decreases j, 0, 2
  {
    if j > 0 {
      InitRunQueues(ns0, j - 1);
      InitRunQueuesStep(ns0, j);
    }
  }

  /** One pass of `maxflow_init` extends queue 1 by node `j - 1` exactly when it is terminal. */
  lemma InitRunQueuesStep(ns0: seq<NodeRec>, j: nat)
    requires 0 < j <= |ns0|
    requires Represents(InitRun(ns0, j - 1), [], TerminalNodes(ns0, j - 1))
    ensures Represents(InitRun(ns0, j), [], TerminalNodes(ns0, j))
    decreases j, 0, 1
  {
    InitRunStepFacts(ns0, j);
    InitStepQueuesAt(InitRun(ns0, j - 1), TerminalNodes(ns0, j - 1), j - 1, InitRun(ns0, j), TerminalNodes(ns0, j));
  }

  /** Pass `j - 1` of `maxflow_init` meets node `j - 1` untouched and outside queue 1. */
  lemma InitRunStepFacts(ns0: seq<NodeRec>, j: nat)
    requires 0 < j <= |ns0|
    ensures j - 1 < |InitRun(ns0, j - 1).ns| && j - 1 !in TerminalNodes(ns0, j - 1)
    ensures -1 <= InitRun(ns0, j - 1).last1 < |InitRun(ns0, j - 1).ns|
    ensures InitRun(ns0, j) == InitStep(InitRun(ns0, j - 1), j - 1)
    ensures TerminalNodes(ns0, j) == TerminalNodes(ns0, j - 1) +
      (if InitRun(ns0, j - 1).ns[j - 1].trCap != 0 then [j - 1] else [])
    decreases j, 0, 0
  {
    InitRunPending(ns0, j - 1);
    TerminalNodesBelow(ns0, j - 1);
  }

  /** The next node to be initialised is still as it was. */
  lemma InitRunPending(ns0: seq<NodeRec>, j: nat)
    requires j < |ns0|
    ensures InitRun(ns0, j).ns[j] == ns0[j]
    decreases j, 3
  {
    InitRunNodes(ns0, j);
  }

  /** The tail of queue 1 links to itself. */
  lemma InitRunTail(ns0: seq<NodeRec>, j: nat)
    requires j <= |ns0|
    ensures InitRun(ns0, j).last1 != -1 ==> InitRun(ns0, j).ns[InitRun(ns0, j).last1].next != -1
    decreases j, 1
  {
    InitRunQueues(ns0, j);
  }

  /** The first `j` nodes of `ns0` as the first `j` passes leave them: initialised, and linked exactly when terminal. */
  ghost predicate InitializedBelow(ns0: seq<NodeRec>, ns: seq<NodeRec>, j: nat)
    requires j <= |ns0| == |ns|
  {
    (forall x :: 0 <= x < j ==> ns[x].(next := -1) == InitNode(ns0[x])) &&
    (forall x :: 0 <= x < j ==> (ns[x].next != -1 <==> ns0[x].trCap != 0))
  }

  /** After `j` passes, the first `j` nodes are initialised and the others are as they were. */
  lemma {:induction false} InitRunNodes(ns0: seq<NodeRec>, j: nat)
    requires j <= |ns0|
    ensures InitializedBelow(ns0, InitRun(ns0, j).ns, j)
    ensures forall x :: j <= x < |ns0| ==> InitRun(ns0, j).ns[x] == ns0[x]
    decreases j, 2, 1
  {
    if j > 0 {
      InitRunNodes(ns0, j - 1);
      InitRunNodesStep(ns0, j);
    }
  }

  /** One pass of `maxflow_init` initialises node `j - 1` and leaves the nodes after it alone. */
  lemma InitRunNodesStep(ns0: seq<NodeRec>, j: nat)
    requires 0 < j <= |ns0|
    requires InitializedBelow(ns0, InitRun(ns0, j - 1).ns, j - 1)
    requires forall x :: j - 1 <= x < |ns0| ==> InitRun(ns0, j - 1).ns[x] == ns0[x]
    ensures InitializedBelow(ns0, InitRun(ns0, j).ns, j)
    ensures forall x :: j <= x < |ns0| ==> InitRun(ns0, j).ns[x] == ns0[x]
    decreases j, 2, 0
  {
    var s := InitRun(ns0, j - 1);
    InitRunTail(ns0, j - 1);
    assert InitRun(ns0, j) == InitStep(s, j - 1);
    InitStepNodesAt(ns0, s, j - 1, InitRun(ns0, j));
  }

  /** A pass over node `j` extends the initialised prefix by one node. */
  lemma InitStepNodesAt(ns0: seq<NodeRec>, s: ActiveList, j: nat, t: ActiveList)
    requires j < |ns0| == |s.ns| && -1 <= s.last1 < j
    requires s.last1 != -1 ==> s.ns[s.last1].next != -1
    requires InitializedBelow(ns0, s.ns, j)
    requires forall x :: j <= x < |ns0| ==> s.ns[x] == ns0[x]
    requires t == InitStep(s, j)
    ensures |t.ns| == |ns0|
    ensures InitializedBelow(ns0, t.ns, j + 1)
    ensures forall x :: j + 1 <= x < |ns0| ==> t.ns[x] == ns0[x]
  {
    InitStepNodes(s, j);
    assert s.ns[j] == ns0[j];
    forall x | 0 <= x < j + 1
      ensures t.ns[x].(next := -1) == InitNode(ns0[x])
      ensures t.ns[x].next != -1 <==> ns0[x].trCap != 0
    {
      if x < j {
        assert t.ns[x].(next := -1) == s.ns[x].(next := -1);
        assert t.ns[x].next != -1 <==> s.ns[x].next != -1;
      }
    }
  }

  /** Once every node is initialised, exactly the terminal nodes are linked. */
  lemma InitListed(ns0: seq<NodeRec>, ns: seq<NodeRec>)
    requires |ns| == |ns0| && InitializedBelow(ns0, ns, |ns0|)
    ensures ListedIff(ns, [], TerminalNodes(ns0, |ns0|))
  {
    forall x | 0 <= x < |ns|
      ensures ns[x].next != -1 <==> x in TerminalNodes(ns0, |ns0|)
    {
      TerminalNodesMember(ns0, |ns0|, x);
    }
  }

  /**
   * After the last pass every node is initialised, queue 0 is empty, and
   * queue 1 holds exactly the nodes with a terminal capacity, in index
   * order, each once.
   */
  lemma InitFinished(ns0: seq<NodeRec>, s: ActiveList, q1: seq<nat>)
    requires s == InitRun(ns0, |ns0|) && q1 == TerminalNodes(ns0, |ns0|)
    ensures Represents(s, [], q1) && ListedIff(s.ns, [], q1)
    ensures |s.ns| == |ns0| && forall x :: 0 <= x < |ns0| ==> s.ns[x].(next := -1) == InitNode(ns0[x])
  {
    InitRunQueues(ns0, |ns0|);
    InitRunNodes(ns0, |ns0|);
    InitListed(ns0, s.ns);
  }

  // ---------------------------------------------------------------------
  // The orphan list
  // ---------------------------------------------------------------------

  /** The allocator's cells with the head and tail pointers of the orphan list. */
  datatype OrphanList = OrphanList(cells: seq<OrphanCell>, first: int, last: int)

  /**
   * `l` is the list of cells reachable from `first`, ending in a cell whose
   * `next` is NULL; the tail pointer is NULL or some allocated cell.
   */
  ghost predicate OrphanChain(o: OrphanList, l: seq<nat>) {
    (l == [] <==> o.first == -1) && (l != [] ==> o.first == l[0]) &&
    (forall k :: 0 <= k < |l| ==> l[k] < |o.cells|) &&
    (forall k :: 0 <= k < |l| - 1 ==> o.cells[l[k]].next == l[k + 1]) &&
    (l != [] ==> o.cells[l[|l| - 1]].next == -1) &&
    Distinct(l) && -1 <= o.last < |o.cells|
  }

  /** A NULL head is the empty list, whatever allocated cell the tail pointer names. */
  lemma EmptyOrphans(o: OrphanList)
    requires o.first == -1 && -1 <= o.last < |o.cells|
    ensures OrphanChain(o, [])
  {
  }

  /** The tail pointer names the last cell of the list (NULL for the empty list). */
  ghost predicate TailConsistent(o: OrphanList, l: seq<nat>) {
    (l == [] && o.last == -1) || (l != [] && o.last == l[|l| - 1])
  }

  /** `set_orphan_front(i)`, lines 84-87: a new cell for `i` in front of the list. */
  function PushFront(o: OrphanList, i: nat): (t: OrphanList)
    ensures t.cells == o.cells + [OrphanCell(i, o.first)] && t.first == |o.cells| && t.last == o.last
  {
    OrphanList(o.cells + [OrphanCell(i, o.first)], |o.cells|, o.last)
  }

  /** `set_orphan_rear(i)`, lines 95-100: a new cell for `i` linked after the cell the tail names. */
  function PushRear(o: OrphanList, i: nat): (t: OrphanList)
    requires -1 <= o.last < |o.cells|
    ensures |t.cells| == |o.cells| + 1 && t.cells[|o.cells|] == OrphanCell(i, -1) && t.last == |o.cells|
  {
    var np := |o.cells|;
    var cs := o.cells + [OrphanCell(i, -1)];
    if o.last != -1 then OrphanList(cs[o.last := cs[o.last].(next := np)], o.first, np)
    else OrphanList(cs, np, np)
  }

  /** What a rear insertion does to a well-formed list, and to one whose tail is consistent. */
  lemma PushRearFacts(o: OrphanList, l: seq<nat>, i: nat)
    requires -1 <= o.last < |o.cells|
    ensures OrphanChain(o, l) ==> OrphanChain(PushRear(o, i), AfterRearInsert(l, o.last, |o.cells|))
    ensures OrphanChain(o, l) && TailConsistent(o, l) ==>
              AfterRearInsert(l, o.last, |o.cells|) == l + [|o.cells|] &&
              TailConsistent(PushRear(o, i), l + [|o.cells|])
  {
    if OrphanChain(o, l) {
      PushRearLinks(o, l, i);
      if TailConsistent(o, l) {
        PushRearAppends(o, l, i);
      }
    }
  }

  /** A front insertion puts the new cell before the whole list. */
  lemma {:induction false} PushFrontPrepends(o: OrphanList, l: seq<nat>, i: nat)
    requires OrphanChain(o, l)
    ensures OrphanChain(PushFront(o, i), [|o.cells|] + l)
    ensures PushFront(o, i).cells[|o.cells|].ptr == i
    ensures l != [] && TailConsistent(o, l) ==> TailConsistent(PushFront(o, i), [|o.cells|] + l)
    ensures l == [] && o.last == -1 ==> !TailConsistent(PushFront(o, i), [|o.cells|])
  {
    var t := PushFront(o, i);
    var l' := [|o.cells|] + l;
    forall k | 0 <= k < |l'| - 1
      ensures t.cells[l'[k]].next == l'[k + 1]
    {
      if k > 0 {
        assert l'[k] == l[k - 1];
      }
    }
  }

  function IndexOf(l: seq<nat>, x: nat): (k: nat)
    requires x in l
    ensures k < |l| && l[k] == x
  {
    if l[0] == x then 0 else 1 + IndexOf(l[1..], x)
  }

  /**
   * The list after a rear insertion: with a NULL tail the new cell is the
   * whole list; a tail inside the list cuts it after the tail and appends
   * the new cell; a tail outside the list leaves it as it was.
   */
  function AfterRearInsert(l: seq<nat>, last: int, np: nat): seq<nat>
  {
    if last == -1 then [np]
    else if last >= 0 && last in l then l[..IndexOf(l, last) + 1] + [np]
    else l
  }

  /** What a rear insertion does to the list, whatever the tail pointer names. */
  lemma {:induction false} PushRearLinks(o: OrphanList, l: seq<nat>, i: nat)
    requires OrphanChain(o, l)
    ensures OrphanChain(PushRear(o, i), AfterRearInsert(l, o.last, |o.cells|))
  {
    var np := |o.cells|;
    var t := PushRear(o, i);
    var l' := AfterRearInsert(l, o.last, np);
    if o.last >= 0 && o.last in l {
      var p := IndexOf(l, o.last);
      forall k | 0 <= k < |l'| - 1
        ensures t.cells[l'[k]].next == l'[k + 1]
      {
        if k < p {
          assert l'[k] == l[k] != o.last;
        }
      }
      forall a, b | 0 <= a < b < |l'|
        ensures l'[a] != l'[b]
      {
        if b == |l'| - 1 {
          assert l'[a] == l[a] < np;
        }
      }
    } else if o.last >= 0 {
      forall k | 0 <= k < |l|
        ensures t.cells[l[k]] == o.cells[l[k]]
      {
        assert l[k] != o.last;
      }
      assert forall k :: 0 <= k < |l| - 1 ==> t.cells[l[k]].next == o.cells[l[k]].next;
    }
  }

  /** With a consistent tail, a rear insertion appends the new cell and keeps the tail consistent. */
  lemma PushRearAppends(o: OrphanList, l: seq<nat>, i: nat)
    requires OrphanChain(o, l) && TailConsistent(o, l)
    ensures AfterRearInsert(l, o.last, |o.cells|) == l + [|o.cells|]
    ensures OrphanChain(PushRear(o, i), l + [|o.cells|])
    ensures TailConsistent(PushRear(o, i), l + [|o.cells|])
    ensures PushRear(o, i).cells[|o.cells|].ptr == i
  {
    if l != [] {
      var p := IndexOf(l, o.last);
      assert l[p] == l[|l| - 1];
      assert l[..p + 1] == l;
    }
    PushRearLinks(o, l, i);
  }
}
