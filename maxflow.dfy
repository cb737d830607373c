/**
 * The list and initialisation helpers of the max-flow solver
 * (maxflow.cpp), on a graph object whose fields they update in place.
 * Every method is tied to the value-level operation of module
 * MaxflowLists that it performs, and keeps the graph's invariant.
 */
module Maxflow {
  import opened MaxflowLists

  class Graph {
    /** The node block; a node pointer is an index into it. */
    var nodes: seq<NodeRec>

    var queueFirst0: int
    var queueLast0: int
    var queueFirst1: int
    var queueLast1: int
    /** The two active queues, front first. */
    ghost var queue0: seq<nat>
    ghost var queue1: seq<nat>

    /** The cells handed out by the orphan-cell allocator, in allocation order. */
    var cells: seq<OrphanCell>
    var orphanFirst: int
    var orphanLast: int
    /** The cells reachable from `orphanFirst`, in order. */
    ghost var orphans: seq<nat>

    /** Whether a changed list was requested, and the node indices recorded in it. */
    var hasChangedList: bool
    var changed: seq<nat>

    var time: int

    function Active(): ActiveList
      reads this`nodes, this`queueFirst0, this`queueLast0, this`queueFirst1, this`queueLast1
    {
      ActiveList(nodes, queueFirst0, queueLast0, queueFirst1, queueLast1)
    }

    function Orphans(): OrphanList
      reads this`cells, this`orphanFirst, this`orphanLast
    {
      OrphanList(cells, orphanFirst, orphanLast)
    }

    /**
     * The active-list invariant: both queues are well linked, no node is
     * queued twice, and a node is queued exactly when its `next` is not NULL.
     */
    ghost predicate ActiveValid()
      reads this`nodes, this`queueFirst0, this`queueLast0, this`queueFirst1, this`queueLast1, this`queue0, this`queue1
    {
      Represents(Active(), queue0, queue1) && ListedIff(nodes, queue0, queue1)
    }

    /** The orphan list is NULL-terminated and free of repeats; the tail pointer is NULL or a cell. */
    ghost predicate OrphansValid()
      reads this`cells, this`orphanFirst, this`orphanLast, this`orphans
    {
      OrphanChain(Orphans(), orphans)
    }

    /** Every recorded node is recorded once and carries the in-changed-list flag. */
    ghost predicate ChangedValid()
      reads this`changed, this`nodes
    {
      ChangedOk(changed, nodes)
    }

    /**
     * `set_active(i)`: a node whose `next` is NULL is appended to queue 1
     * and linked to itself; a listed node changes nothing.
     */
    method SetActive(i: nat)
      requires i < |nodes| && Represents(Active(), queue0, queue1)
      modifies this`nodes, this`queueFirst1, this`queueLast1, this`queue1
      ensures Active() == MaxflowLists.SetActive(old(Active()), i)
      ensures queue1 == old(queue1) + (if old(nodes[i].next) == -1 then [i] else [])
      ensures Represents(Active(), queue0, queue1)
      ensures old(ListedIff(nodes, queue0, queue1)) ==> ListedIff(nodes, queue0, queue1)
    {
      SetActiveAppends(Active(), queue0, queue1, i);
      if nodes[i].next == -1 {
        if queueLast1 != -1 {
          nodes := nodes[queueLast1 := nodes[queueLast1].(next := i)];
        } else {
          queueFirst1 := i;
        }
        queueLast1 := i;
        nodes := nodes[i := nodes[i].(next := i)];
        queue1 := queue1 + [i];
      }
    }

    /** Lines 68-70 of `next_active`: unlinks the front of queue 0 and clears its `next`. */
    method PopFront0() returns (i: nat)
      requires Represents(Active(), queue0, queue1) && queue0 != []
      modifies this`nodes, this`queueFirst0, this`queueLast0, this`queue0
      ensures i == old(queue0[0]) && i < |nodes|
      ensures Active() == Pop0(old(Active()))
      ensures nodes == old(nodes)[i := old(nodes[i]).(next := -1)]
      ensures queue0 == old(queue0[1..])
      ensures Represents(Active(), queue0, queue1)
      ensures old(ListedIff(nodes, queue0, queue1)) ==> ListedIff(nodes, queue0, queue1)
    {
      Pop0Removes(Active(), queue0, queue1);
      Pop0KeepsListed(Active(), queue0, queue1);
      i := queueFirst0;
      if nodes[i].next == i {
        queueFirst0, queueLast0 := -1, -1;
      } else {
        queueFirst0 := nodes[i].next;
      }
      nodes := nodes[i := nodes[i].(next := -1)];
      queue0 := queue0[1..];
    }

    /** Lines 58-63 of `next_active`: an empty queue 0 takes over queue 1, which becomes empty. */
    method TakeOverQueue1()
      requires Represents(Active(), queue0, queue1) && queue0 == []
      modifies this`queueFirst0, this`queueLast0, this`queueFirst1, this`queueLast1, this`queue0, this`queue1
      ensures Active() == TakeOver(old(Active())) && nodes == old(nodes)
      ensures queue0 == old(queue1) && queue1 == []
      ensures Represents(Active(), queue0, queue1)
      ensures old(ListedIff(nodes, queue0, queue1)) ==> ListedIff(nodes, queue0, queue1)
    {
      TakeOverMoves(Active(), queue1);
      queueFirst0, queueLast0 := queueFirst1, queueLast1;
      queueFirst1, queueLast1 := -1, -1;
      queue0, queue1 := queue1, [];
    }

    /**
     * One pass of the `while (1)` loop of `next_active`, after `j` nodes
     * of the original queues `q0 + q1` over nodes `ns` have been taken:
     * lines 58-65 refill an empty queue 0 from queue 1 (and stop with NULL
     * when both are empty), lines 68-73 take the front node and stop if it
     * has a parent.
     */
    method NextActivePass(ghost q0: seq<nat>, ghost q1: seq<nat>, ghost ns: seq<NodeRec>, ghost j: nat)
      returns (done: bool, r: int)
      requires Represents(Active(), queue0, queue1) && Scanned(q0, q1, ns, j, queue0, queue1, nodes)
      modifies this`nodes, this`queueFirst0, this`queueLast0, this`queueFirst1, this`queueLast1, this`queue0, this`queue1
      ensures Represents(Active(), queue0, queue1)
      ensures done ==> NextActiveResult(q0, q1, ns, r, queue0, queue1, nodes)
      ensures !done ==> Scanned(q0, q1, ns, j + 1, queue0, queue1, nodes)
    {
      if queueFirst0 == -1 {
        var empty := RefillForScan(q0, q1, ns, j);
        if empty {
          return true, -1;
        }
      }
      done, r := PopForScan(q0, q1, ns, j);
    }

    /** Lines 58-65 of `next_active`: queue 0 is empty, so it takes over queue 1; NULL if that is empty too. */
    method RefillForScan(ghost q0: seq<nat>, ghost q1: seq<nat>, ghost ns: seq<NodeRec>, ghost j: nat)
      returns (empty: bool)
      requires Represents(Active(), queue0, queue1) && Scanned(q0, q1, ns, j, queue0, queue1, nodes)
      requires queueFirst0 == -1
      modifies this`queueFirst0, this`queueLast0, this`queueFirst1, this`queueLast1, this`queue0, this`queue1
      ensures Represents(Active(), queue0, queue1) && nodes == old(nodes)
      ensures empty ==> NextActiveResult(q0, q1, ns, -1, queue0, queue1, nodes)
      ensures !empty ==> queueFirst0 != -1 && Scanned(q0, q1, ns, j, queue0, queue1, nodes)
    {
      assert queue0 == [];
      ScanTakeOver(q0, q1, ns, j, queue1, nodes);
      TakeOverQueue1();
      empty := queueFirst0 == -1;
      if empty {
        assert queue0 == [] && queue1 == [];
        ScanEmpty(q0, q1, ns, j, nodes);
      }
    }

    /** Lines 68-73 of `next_active`: the front node of queue 0 is taken; the pass stops if it has a parent. */
    method PopForScan(ghost q0: seq<nat>, ghost q1: seq<nat>, ghost ns: seq<NodeRec>, ghost j: nat)
      returns (done: bool, r: int)
      requires Represents(Active(), queue0, queue1) && Scanned(q0, q1, ns, j, queue0, queue1, nodes)
      requires queueFirst0 != -1
      modifies this`nodes, this`queueFirst0, this`queueLast0, this`queue0
      ensures Represents(Active(), queue0, queue1)
      ensures done ==> NextActiveResult(q0, q1, ns, r, queue0, queue1, nodes)
      ensures !done ==> Scanned(q0, q1, ns, j + 1, queue0, queue1, nodes)
    {
      ghost var a, b, cur := queue0, queue1, nodes;
      assert a != [];
      var i := PopFront0();
      assert queue0 == a[1..] && queue1 == b;
      ScanPop(q0, q1, ns, j, a, b, cur, i, nodes);
      done, r := nodes[i].parent != NoParent, i;
    }

    /**
     * `next_active()`: removes nodes from the front of the queues (queue 0
     * first, then what was queue 1) until one with a parent comes up, and
     * returns it; every removed node gets `next = NULL`. Returns -1 when no
     * queued node has a parent, and then both queues are empty.
     */
    method NextActive() returns (r: int)
      requires Represents(Active(), queue0, queue1)
      modifies this`nodes, this`queueFirst0, this`queueLast0, this`queueFirst1, this`queueLast1, this`queue0, this`queue1
      ensures Represents(Active(), queue0, queue1)
      ensures NextActiveResult(old(queue0), old(queue1), old(nodes), r, queue0, queue1, nodes)
      ensures old(ListedIff(nodes, queue0, queue1)) ==> ListedIff(nodes, queue0, queue1)
    {
      ghost var ns := nodes;
      ghost var q0 := queue0;
      ghost var q1 := queue1;
      ghost var j := 0;
      ScanStart(q0, q1, ns);
      while true
        invariant Represents(Active(), queue0, queue1)
        invariant Scanned(q0, q1, ns, j, queue0, queue1, nodes)
        decreases |q0 + q1| - j
      {
        var done;
        done, r := NextActivePass(q0, q1, ns, j);
        if done {
          if ListedIff(ns, q0, q1) {
            NextActiveKeepsListed(q0, q1, ns, r, queue0, queue1, nodes);
          }
          return;
        }
        j := j + 1;
      }
    }

    /**
     * `set_orphan_front(i)`: marks `i` as an orphan and puts a new cell
     * for it in front of the orphan list. The links of the nodes do not
     * change, so the active lists stay as they are (lemma SameLinks).
     */
    method SetOrphanFront(i: nat)
      requires i < |nodes|
      modifies this`nodes, this`cells, this`orphanFirst, this`orphans
      ensures nodes == old(nodes)[i := old(nodes[i]).(parent := Orphan)]
      ensures Orphans() == PushFront(old(Orphans()), i)
      ensures orphans == [|old(cells)|] + old(orphans)
      ensures old(OrphansValid()) ==> OrphansValid()
      ensures old(OrphansValid() && orphans != [] && TailConsistent(Orphans(), orphans)) ==> TailConsistent(Orphans(), orphans)
    {
      if OrphansValid() {
        PushFrontPrepends(Orphans(), orphans, i);
      }
      nodes := nodes[i := nodes[i].(parent := Orphan)];
      orphans := [|cells|] + orphans;
      cells, orphanFirst := cells + [OrphanCell(i, orphanFirst)], |cells|;
    }

    /**
     * `set_orphan_rear(i)`: marks `i` as an orphan and links a new cell
     * for it, with a NULL `next`, after the cell the tail pointer names;
     * the new cell becomes the tail. With a consistent tail this appends
     * the cell to the list.
     */
    method SetOrphanRear(i: nat)
      requires i < |nodes| && -1 <= orphanLast < |cells|
      modifies this`nodes, this`cells, this`orphanFirst, this`orphanLast, this`orphans
      ensures nodes == old(nodes)[i := old(nodes[i]).(parent := Orphan)]
      ensures Orphans() == PushRear(old(Orphans()), i)
      ensures orphans == AfterRearInsert(old(orphans), old(orphanLast), |old(cells)|)
      ensures old(OrphansValid()) ==> OrphansValid()
      ensures old(OrphansValid() && TailConsistent(Orphans(), orphans)) ==>
                orphans == old(orphans) + [|old(cells)|] && TailConsistent(Orphans(), orphans)
    {
      PushRearFacts(Orphans(), orphans, i);
      nodes := nodes[i := nodes[i].(parent := Orphan)];
      orphans := AfterRearInsert(orphans, orphanLast, |cells|);
      var np := |cells|;
      cells := cells + [OrphanCell(i, -1)];
      if orphanLast != -1 {
        cells := cells[orphanLast := cells[orphanLast].(next := np)];
      } else {
        orphanFirst := np;
      }
      orphanLast := np;
    }

    /**
     * `add_to_changed_list(i)`: when a changed list was requested and `i`
     * is not flagged yet, records its index and flags it.
     */
    method AddToChangedList(i: nat)
      requires i < |nodes|
      modifies this`nodes, this`changed
      ensures var add := hasChangedList && !old(nodes[i].inChanged);
        changed == old(changed) + (if add then [i] else []) &&
        nodes == if add then old(nodes)[i := old(nodes[i]).(inChanged := true)] else old(nodes)
      ensures old(ChangedValid()) ==> ChangedValid()
    {
      if hasChangedList && !nodes[i].inChanged {
        if ChangedValid() {
          RecordChanged(changed, nodes, i);
        }
        changed := changed + [i];
        nodes := nodes[i := nodes[i].(inChanged := true)];
      }
    }

    /**
     * The body of the loop of `maxflow_init` for node `j` (lines 131-154):
     * the node is reset as `InitNode` says, and one with a terminal
     * capacity is made active. (The source sets the distance after the
     * call to `set_active`, which does not read it.)
     */
    method InitNodeAt(j: nat)
      requires j < |nodes| && -1 <= queueLast1 < |nodes|
      modifies this`nodes, this`queueFirst1, this`queueLast1
      ensures Active() == InitStep(old(Active()), j)
    {
      nodes := nodes[j := InitNode(nodes[j])];
      if nodes[j].trCap != 0 {
        if nodes[j].next == -1 {
          if queueLast1 != -1 {
            nodes := nodes[queueLast1 := nodes[queueLast1].(next := j)];
          } else {
            queueFirst1 := j;
          }
          queueLast1 := j;
          nodes := nodes[j := nodes[j].(next := j)];
        }
      }
    }

    /**
     * The active-list part of `maxflow_init` (lines 120-123 and 129-155):
     * both queues are emptied, then node `j` is initialised at step `j`,
     * so queue 1 collects the nodes with a terminal capacity in index order.
     */
    method InitActive()
      modifies this`nodes, this`queueFirst0, this`queueLast0, this`queueFirst1, this`queueLast1, this`queue0, this`queue1
      ensures |nodes| == |old(nodes)|
      ensures forall x :: 0 <= x < |nodes| ==> nodes[x].(next := -1) == InitNode(old(nodes[x]))
      ensures queue0 == [] && queue1 == TerminalNodes(old(nodes), |old(nodes)|)
      ensures ActiveValid()
    {
      ghost var ns0 := nodes;
      queueFirst0, queueLast0 := -1, -1;
      queueFirst1, queueLast1 := -1, -1;
      queue0, queue1 := [], [];
      InitNodes();
      InitFinished(ns0, Active(), queue1);
    }

    /** The node loop of `maxflow_init` (lines 129-155), starting from empty queues. */
    method InitNodes()
      requires queueFirst0 == queueLast0 == queueFirst1 == queueLast1 == -1 && queue1 == []
      modifies this`nodes, this`queueFirst1, this`queueLast1, this`queue1
      ensures Active() == InitRun(old(nodes), |old(nodes)|)
      ensures queue1 == TerminalNodes(old(nodes), |old(nodes)|)
    {
      ghost var ns0 := nodes;
      for j := 0 to |nodes|
        invariant Active() == InitRun(ns0, j)
        invariant queue1 == TerminalNodes(ns0, j)
      {
        InitNodeAt(j);
        queue1 := queue1 + if ns0[j].trCap != 0 then [j] else [];
      }
    }

    /**
     * `maxflow_init()`: empties both queues and the orphan list, sets the
     * time to 0, and initialises every node in index order, so that queue
     * 1 ends up holding the nodes with a terminal capacity in index order.
     * The orphan tail pointer is left as it was. (The source empties the
     * queues before the orphan list; the two resets touch different fields.)
     */
    method MaxflowInit()
      modifies this`nodes, this`queueFirst0, this`queueLast0, this`queueFirst1, this`queueLast1, this`queue0, this`queue1,
               this`orphanFirst, this`orphans, this`time
      ensures |nodes| == |old(nodes)|
      ensures forall x :: 0 <= x < |nodes| ==> nodes[x].(next := -1) == InitNode(old(nodes[x]))
      ensures queue0 == [] && queue1 == TerminalNodes(old(nodes), |old(nodes)|)
      ensures ActiveValid()
      ensures orphanFirst == -1 && orphans == [] && time == 0
      ensures -1 <= orphanLast < |cells| ==> OrphansValid()
    {
      orphanFirst := -1;
      orphans := [];
      time := 0;
      if -1 <= orphanLast < |cells| {
        EmptyOrphans(Orphans());
        assert OrphansValid();
      }
      InitActive();
    }
  }
}
