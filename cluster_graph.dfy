/**
 * libDAI's ClusterGraph (clustergraph.h): a hypergraph whose nodes are
 * variables and whose hyperedges ("clusters") are sets of variables.
 *
 * A variable is identified by its label. A VarSet is kept, as libDAI
 * keeps it, as the ascending sequence of its labels. The bipartite graph
 * `G` is modelled by its cluster side: `nb2[I]` lists, in the order of
 * cluster `I`'s members, the indices in `vars` of those members. The
 * variable side `nb1(i)` is the ascending list of clusters `I` whose
 * `nb2[I]` holds `i`; the loops below walk it in that order.
 */
module ClusterGraphs {
  import opened DaiUtil

  // ---------------------------------------------------------------------
  // VarSet operations
  // ---------------------------------------------------------------------

  /** A VarSet: labels in ascending order, no repeats. */
  type VarSet = seq<int>

  /** `a | b` on VarSets: the ascending merge of both. */
  function Union(a: VarSet, b: VarSet): (r: VarSet)
    requires StrictlyIncreasing(a) && StrictlyIncreasing(b)
    ensures StrictlyIncreasing(r)
    ensures forall x :: x in r <==> x in a || x in b
    decreases |a| + |b|
  {
    if a == [] then b
    else if b == [] then a
    else if a[0] < b[0] then
      var rest := Union(a[1..], b);
      HeadBelowRest(a);
      HeadBelowRest(b);
      ConsIncreasing(a[0], rest);
      [a[0]] + rest
    else if b[0] < a[0] then
      var rest := Union(a, b[1..]);
      HeadBelowRest(a);
      HeadBelowRest(b);
      ConsIncreasing(b[0], rest);
      [b[0]] + rest
    else
      var rest := Union(a[1..], b[1..]);
      HeadBelowRest(a);
      HeadBelowRest(b);
      ConsIncreasing(a[0], rest);
      [a[0]] + rest
  }

  lemma HeadBelowRest(s: seq<int>)
    requires s != [] && StrictlyIncreasing(s)
    ensures forall x :: x in s[1..] ==> s[0] < x
    ensures forall x :: x in s ==> s[0] <= x
  {
  }

  /** A value below every element of an ascending sequence may be put in front of it. */
  lemma ConsIncreasing(h: int, rest: seq<int>)
    requires StrictlyIncreasing(rest)
    requires forall x :: x in rest ==> h < x
    ensures StrictlyIncreasing([h] + rest)
  {
    var s := [h] + rest;
    forall i, j | 0 <= i < j < |s|
      ensures s[i] < s[j]
    {
      if i == 0 {
        assert s[j] in rest;
      }
    }
  }

  /** `s / x`: the VarSet without variable `x`. */
  function Without(s: VarSet, x: int): (r: VarSet)
    requires StrictlyIncreasing(s)
    ensures StrictlyIncreasing(r)
    ensures forall y :: y in r <==> y in s && y != x
  {
    if s == [] then []
    else
      var rest := Without(s[1..], x);
      HeadBelowRest(s);
      if s[0] == x then rest
      else
        ConsIncreasing(s[0], rest);
        [s[0]] + rest
  }

  /** `small << big`: every variable of `small` is in `big`. */
  predicate Includes(big: VarSet, small: VarSet) {
    forall x :: x in small ==> x in big
  }

  /** The two clusters have a variable in common. */
  ghost predicate SharesVar(a: VarSet, b: VarSet) {
    exists x :: x in a && x in b
  }

  // ---------------------------------------------------------------------
  // The cluster-graph invariant
  // ---------------------------------------------------------------------

  predicate Distinct(vs: seq<int>) {
    forall i, j :: 0 <= i < j < |vs| ==> vs[i] != vs[j]
  }

  /** Cluster `c` is a VarSet and `nbs` holds, member by member, its position in `vs`. */
  predicate Linked(vs: seq<int>, c: VarSet, nbs: seq<nat>) {
    StrictlyIncreasing(c) && |nbs| == |c| &&
    forall k :: 0 <= k < |c| ==> nbs[k] < |vs| && vs[nbs[k]] == c[k]
  }

  /** Variable `i` is a neighbour of a cluster exactly when the cluster holds `vars[i]`. */
  lemma NeighbourIff(vs: seq<int>, c: VarSet, nbs: seq<nat>, i: nat)
    requires Distinct(vs) && Linked(vs, c, nbs) && i < |vs|
    ensures i in nbs <==> vs[i] in c
  {
    if vs[i] in c {
      var k :| 0 <= k < |c| && c[k] == vs[i];
      assert vs[nbs[k]] == vs[i];
    }
  }

  /** `cls` with its `p`-th cluster erased. */
  function Erase<T>(cls: seq<T>, p: nat): (r: seq<T>)
    requires p < |cls|
    ensures |r| == |cls| - 1
    ensures forall k :: 0 <= k < |r| ==> r[k] == cls[if k < p then k else k + 1]
  {
    cls[..p] + cls[p + 1..]
  }

  // ---------------------------------------------------------------------
  // Maximal clusters
  // ---------------------------------------------------------------------

  /**
   * Cluster `I` is maximal: no other cluster that shares a variable with
   * it contains all of its variables.
   */
  ghost predicate Maximal(cls: seq<VarSet>, I: nat)
    requires I < |cls|
  {
    forall J :: 0 <= J < |cls| && J != I && SharesVar(cls[I], cls[J]) ==> !Includes(cls[J], cls[I])
  }

  /** `small` is `big` with some clusters left out and the others in their old order. */
  ghost predicate KeptInOrder(big: seq<VarSet>, small: seq<VarSet>, kept: seq<nat>) {
    |kept| == |small| && StrictlyIncreasing(kept) &&
    forall k :: 0 <= k < |kept| ==> kept[k] < |big| && small[k] == big[kept[k]]
  }

  /**
   * A cluster maximal among many is maximal among fewer: leaving clusters
   * out never takes maximality away.
   */
  lemma KeptMaximal(big: seq<VarSet>, small: seq<VarSet>, kept: seq<nat>, I: nat)
    requires KeptInOrder(big, small, kept) && I < |small|
    ensures Maximal(big, kept[I]) ==> Maximal(small, I)
  {
    if Maximal(big, kept[I]) {
      forall J | 0 <= J < |small| && J != I && SharesVar(small[I], small[J])
        ensures !Includes(small[J], small[I])
      {
        assert kept[J] != kept[I] by {
          if J < I { assert kept[J] < kept[I]; } else { assert kept[I] < kept[J]; }
        }
        assert big[kept[J]] == small[J];
      }
    }
  }

  /** Erasing one cluster keeps every other maximal cluster maximal. */
  lemma EraseKeepsMaximal(cls: seq<VarSet>, p: nat, K: nat)
    requires p < |cls| && K < |cls| - 1
    ensures Maximal(cls, if K < p then K else K + 1) ==> Maximal(Erase(cls, p), K)
  {
    var kept: seq<nat> := seq(|cls| - 1, k requires 0 <= k < |cls| - 1 => if k < p then k else k + 1);
    assert KeptInOrder(cls, Erase(cls, p), kept);
    KeptMaximal(cls, Erase(cls, p), kept, K);
  }

  /** The clusters of `cls` that do not hold variable `v`, in order. */
  function ClustersWithout(cls: seq<VarSet>, v: int): (r: seq<VarSet>)
    ensures forall c :: c in r <==> c in cls && v !in c
    ensures |r| <= |cls|
  {
    if cls == [] then []
    else (if v in cls[0] then [] else [cls[0]]) + ClustersWithout(cls[1..], v)
  }

  /** Erasing a cluster that holds `v` leaves the clusters without `v` as they were. */
  lemma {:induction false} EraseHolderKeepsOthers(cls: seq<VarSet>, p: nat, v: int)
    requires p < |cls| && v in cls[p]
    ensures ClustersWithout(Erase(cls, p), v) == ClustersWithout(cls, v)
  {
    var e := Erase(cls, p);
    if p == 0 {
      assert e == cls[1..];
    } else {
      var tail := Erase(cls[1..], p - 1);
      EraseHolderKeepsOthers(cls[1..], p - 1, v);
      assert e[0] == cls[0];
      assert e[1..] == tail;
      var head := if v in cls[0] then [] else [cls[0]];
      calc {
        ClustersWithout(e, v);
        head + ClustersWithout(e[1..], v);
        head + ClustersWithout(cls[1..], v);
        ClustersWithout(cls, v);
      }
    }
  }

  /** When no cluster holds `v`, nothing is filtered out. */
  lemma {:induction false} NoHolderKeepsAll(cls: seq<VarSet>, v: int)
    requires forall J :: 0 <= J < |cls| ==> v !in cls[J]
    ensures ClustersWithout(cls, v) == cls
  {
    if cls != [] {
      NoHolderKeepsAll(cls[1..], v);
    }
  }

  // ---------------------------------------------------------------------
  // New variables of an inserted cluster
  // ---------------------------------------------------------------------

  /** The variables of `c` not yet in `vs`, in the order of `c`. */
  function NewVars(vs: seq<int>, c: seq<int>): (r: seq<int>)
    ensures forall x :: x in r <==> x in c && x !in vs
    ensures |r| <= |c|
  {
    if c == [] then []
    else NewVars(vs, c[..|c| - 1]) + (if c[|c| - 1] in vs then [] else [c[|c| - 1]])
  }

  /** One more member of a VarSet is new exactly when it is not in `vs`. */
  lemma NewVarsStep(vs: seq<int>, c: seq<int>, n: nat)
    requires StrictlyIncreasing(c) && n < |c|
    ensures NewVars(vs, c[..n + 1]) == NewVars(vs, c[..n]) + (if c[n] in vs then [] else [c[n]])
    ensures c[n] in vs + NewVars(vs, c[..n]) <==> c[n] in vs
  {
    assert c[..n + 1][..n] == c[..n];
    assert forall x :: x in NewVars(vs, c[..n]) ==> x in c[..n];
  }

  /**
   * One step of the variable loop of `insert`: member `n` was looked up in
   * `vs` and found at `iter` (or not, when `iter == |vs|`); appending it
   * when absent extends the variables by the new ones among the first
   * `n + 1` members.
   */
  lemma AppendStep(vs0: seq<int>, c: seq<int>, n: nat, vs: seq<int>, iter: nat)
    requires StrictlyIncreasing(c) && n < |c|
    requires vs == vs0 + NewVars(vs0, c[..n])
    requires iter <= |vs| && (forall k :: 0 <= k < iter ==> vs[k] != c[n])
    requires iter < |vs| ==> vs[iter] == c[n]
    ensures (if iter == |vs| then vs + [c[n]] else vs) == vs0 + NewVars(vs0, c[..n + 1])
  {
    NewVarsStep(vs0, c, n);
    if iter == |vs| {
      assert c[n] !in vs;
    }
  }

  /** Recording the position of one more member keeps every recorded position right. */
  lemma PositionStep(c: seq<int>, n: nat, vs: seq<int>, nbs: seq<nat>, iter: nat)
    requires n < |c|
    requires |nbs| == n && forall k :: 0 <= k < n ==> nbs[k] < |vs| && vs[nbs[k]] == c[k]
    requires iter <= |vs| && (iter < |vs| ==> vs[iter] == c[n])
    ensures var vs' := if iter == |vs| then vs + [c[n]] else vs;
      forall k :: 0 <= k < n + 1 ==> (nbs + [iter])[k] < |vs'| && vs'[(nbs + [iter])[k]] == c[k]
  {
  }

  /** The new variables of a VarSet are themselves free of repeats. */
  lemma {:induction false} NewVarsDistinct(vs: seq<int>, c: seq<int>)
    requires StrictlyIncreasing(c)
    ensures Distinct(NewVars(vs, c))
  {
    if c != [] {
      var init := c[..|c| - 1];
      NewVarsDistinct(vs, init);
      assert forall x :: x in NewVars(vs, init) ==> x in init;
      assert forall x :: x in init ==> x < c[|c| - 1];
    }
  }

  /** Appending the new variables to a repeat-free `vs` keeps it repeat-free. */
  lemma AppendNewVarsDistinct(vs: seq<int>, c: seq<int>)
    requires Distinct(vs) && StrictlyIncreasing(c)
    ensures Distinct(vs + NewVars(vs, c))
    ensures forall x :: x in c ==> x in vs + NewVars(vs, c)
  {
    NewVarsDistinct(vs, c);
    var r := NewVars(vs, c);
    var w := vs + r;
    forall i, j | 0 <= i < j < |w|
      ensures w[i] != w[j]
    {
      if j >= |vs| && i < |vs| {
        assert w[j] in r;
      } else if i >= |vs| {
        assert w[i] == r[i - |vs|] && w[j] == r[j - |vs|];
      }
    }
  }

  /** Extending `vs` at the end keeps every cluster linked to it. */
  lemma LinkedAfterAppend(vs: seq<int>, ws: seq<int>, cls: seq<VarSet>, nbss: seq<seq<nat>>)
    requires |vs| <= |ws| && ws[..|vs|] == vs && |nbss| == |cls|
    requires forall I :: 0 <= I < |cls| ==> Linked(vs, cls[I], nbss[I])
    ensures forall I :: 0 <= I < |cls| ==> Linked(ws, cls[I], nbss[I])
  {
    forall I, k | 0 <= I < |cls| && 0 <= k < |cls[I]|
      ensures nbss[I][k] < |ws| && ws[nbss[I][k]] == cls[I][k]
    {
      assert Linked(vs, cls[I], nbss[I]);
      assert ws[nbss[I][k]] == ws[..|vs|][nbss[I][k]];
    }
  }

  // ---------------------------------------------------------------------
  // The walk of eraseNonMaximal
  // ---------------------------------------------------------------------

  /** Every cluster below `next` that was dropped was not maximal to begin with. */
  ghost predicate OnlyNonMaximalDropped(cls0: seq<VarSet>, kept: seq<nat>, next: nat)
    requires next <= |cls0|
  {
    forall p :: 0 <= p < next && p !in kept ==> !Maximal(cls0, p)
  }

  /**
   * The state of the walk after `next` of the original clusters `cls0` were
   * looked at: the first `I` clusters of `cls` are those kept so far, all
   * maximal, and the rest of `cls` is the untouched tail of `cls0`.
   */
  ghost predicate Progress(cls0: seq<VarSet>, cls: seq<VarSet>, kept: seq<nat>, I: nat, next: nat) {
    I <= |cls| && next <= |cls0| && KeptInOrder(cls0, cls, kept) &&
    |kept| - I == |cls0| - next &&
    (forall k :: I <= k < |kept| ==> kept[k] == next + (k - I)) &&
    (forall k :: 0 <= k < I ==> kept[k] < next) &&
    (forall k :: 0 <= k < I ==> Maximal(cls, k)) &&
    OnlyNonMaximalDropped(cls0, kept, next)
  }

  /** Before the walk every cluster is kept and none is looked at. */
  lemma ProgressStart(cls0: seq<VarSet>) returns (kept: seq<nat>)
    ensures Progress(cls0, cls0, kept, 0, 0)
  {
    kept := seq(|cls0|, k requires 0 <= k < |cls0| => k);
  }

  /** Keeping a maximal cluster moves the walk one cluster on. */
  lemma ProgressKeep(cls0: seq<VarSet>, cls: seq<VarSet>, kept: seq<nat>, I: nat, next: nat)
    requires Progress(cls0, cls, kept, I, next) && I < |cls| && Maximal(cls, I)
    ensures Progress(cls0, cls, kept, I + 1, next + 1)
  {
    assert kept[I] == next;
  }

  /**
   * Erasing a cluster that is not maximal among those present moves the
   * walk on as well: the erased cluster was not maximal among the
   * original ones either.
   */
  lemma ProgressErase(cls0: seq<VarSet>, cls: seq<VarSet>, kept: seq<nat>, I: nat, next: nat)
    requires Progress(cls0, cls, kept, I, next) && I < |cls| && !Maximal(cls, I)
    ensures Progress(cls0, Erase(cls, I), Erase(kept, I), I, next + 1)
  {
    var cls', kept' := Erase(cls, I), Erase(kept, I);
    assert kept[I] == next;
    KeptMaximal(cls0, cls, kept, I);
    forall k | 0 <= k < I
      ensures Maximal(cls', k)
    {
      EraseKeepsMaximal(cls, I, k);
    }
    forall p | 0 <= p < next && p in kept
      ensures p in kept'
    {
      var j :| 0 <= j < |kept| && kept[j] == p;
      assert j < I;
      assert kept'[j] == p;
    }
    assert KeptInOrder(cls0, cls', kept');
  }

  // ---------------------------------------------------------------------
  // The graph object
  // ---------------------------------------------------------------------

  class ClusterGraph {
    /** The variables (by label) corresponding to the variable nodes. */
    var vars: seq<int>
    /** The clusters corresponding to the cluster nodes. */
    var clusters: seq<VarSet>
    /** The cluster side of the bipartite graph `G`. */
    var nb2: seq<seq<nat>>

    ghost predicate Valid()
      reads this`vars, this`clusters, this`nb2
    {
      Distinct(vars) && |nb2| == |clusters| &&
      forall I :: 0 <= I < |clusters| ==> Linked(vars, clusters[I], nb2[I])
    }

    /** The default constructor: no variables, no clusters. */
    constructor ()
      ensures Valid()
      ensures vars == [] && clusters == [] && Size() == 0
    {
      vars := [];
      clusters := [];
      nb2 := [];
    }

    /** `size()`: the number of cluster nodes of `G`, which is the number of clusters. */
    function Size(): (n: nat)
      reads this`nb2, this`vars, this`clusters
      requires Valid()
      ensures n == |clusters|
    {
      |nb2|
    }

    /** `findVar(n)`: the index of the first variable equal to `n`, or `vars.size()`. */
    method FindVar(n: int) returns (r: nat)
      ensures r <= |vars|
      ensures forall k :: 0 <= k < r ==> vars[k] != n
      ensures r < |vars| ==> vars[r] == n
    {
      r := 0;
      while r < |vars| && vars[r] != n
        invariant r <= |vars|
        invariant forall k :: 0 <= k < r ==> vars[k] != n
      {
        r := r + 1;
      }
    }

    /** `Delta(i)`: the union of the clusters that hold the `i`-th variable. */
    method Delta(i: nat) returns (result: VarSet)
      requires Valid() && i < |vars|
      ensures StrictlyIncreasing(result)
      ensures forall x :: x in result <==>
        exists I :: 0 <= I < |clusters| && vars[i] in clusters[I] && x in clusters[I]
    {
      result := [];
      for I := 0 to |clusters|
        invariant StrictlyIncreasing(result)
        invariant forall x :: x in result <==>
          exists J :: 0 <= J < I && vars[i] in clusters[J] && x in clusters[J]
      {
        NeighbourIff(vars, clusters[I], nb2[I], i);
        if i in nb2[I] {
          result := Union(result, clusters[I]);
        }
      }
    }

    /** `delta(i)`: `Delta(i)` without the `i`-th variable itself. */
    method DeltaOthers(i: nat) returns (result: VarSet)
      requires Valid() && i < |vars|
      ensures StrictlyIncreasing(result)
      ensures vars[i] !in result
      ensures forall x :: x in result <==>
        (x != vars[i] && exists I :: 0 <= I < |clusters| && vars[i] in clusters[I] && x in clusters[I])
    {
      var d := Delta(i);
      result := Without(d, vars[i]);
    }

    /** `adj(i1, i2)`: some cluster holding variable `i1` also holds variable `i2`. */
    method Adj(i1: nat, i2: nat) returns (result: bool)
      requires Valid() && i1 < |vars|
      ensures result <==>
        (i2 < |vars| && exists I :: 0 <= I < |clusters| && vars[i1] in clusters[I] && vars[i2] in clusters[I])
    {
      result := false;
      var I := 0;
      while I < |clusters|
        invariant I <= |clusters|
        invariant !result
        invariant forall J :: 0 <= J < I ==> !(i1 in nb2[J] && i2 in nb2[J])
      {
        if i1 in nb2[I] && i2 in nb2[I] {
          result := true;
          break;
        }
        I := I + 1;
      }
      if result {
        NeighbourIff(vars, clusters[I], nb2[I], i1);
        NeighbourIff(vars, clusters[I], nb2[I], i2);
      } else {
        forall J | 0 <= J < |clusters| && vars[i1] in clusters[J] && i2 < |vars|
          ensures vars[i2] !in clusters[J]
        {
          NeighbourIff(vars, clusters[J], nb2[J], i1);
          NeighbourIff(vars, clusters[J], nb2[J], i2);
        }
      }
    }

    /** `isMaximal(I)`: no other cluster sharing a variable with cluster `I` contains it. */
    method IsMaximal(I: nat) returns (maximal: bool)
      requires Valid() && I < |clusters|
      ensures maximal <==> Maximal(clusters, I)
    {
      var clI := clusters[I];
      for k := 0 to |nb2[I]|
        invariant forall k', J :: 0 <= k' < k && 0 <= J < |clusters| && J != I && clI[k'] in clusters[J] ==>
          !Includes(clusters[J], clI)
      {
        var i := nb2[I][k];
        for J := 0 to |clusters|
          invariant forall J' :: 0 <= J' < J && J' != I && clI[k] in clusters[J'] ==> !Includes(clusters[J'], clI)
        {
          NeighbourIff(vars, clusters[J], nb2[J], i);
          if i in nb2[J] && J != I && Includes(clusters[J], clI) {
            assert SharesVar(clI, clusters[J]);
            return false;
          }
        }
      }
      forall J | 0 <= J < |clusters| && J != I && SharesVar(clI, clusters[J])
        ensures !Includes(clusters[J], clI)
      {
        var x :| x in clI && x in clusters[J];
        var k' :| 0 <= k' < |clI| && clI[k'] == x;
      }
      return true;
    }

    /** Erases cluster `p` and its cluster node (`clusters.erase`, `G.eraseNode2`). */
    method EraseCluster(p: nat)
      requires Valid() && p < |clusters|
      modifies this`clusters, this`nb2
      ensures Valid()
      ensures clusters == Erase(old(clusters), p) && nb2 == Erase(old(nb2), p)
    {
      clusters := Erase(clusters, p);
      nb2 := Erase(nb2, p);
    }

    /**
     * The variable loop of `insert`: each member of `cl` is looked up in
     * `vars`, appended when absent, and its position recorded in `nbs`.
     */
    method AppendNewVars(cl: VarSet) returns (nbs: seq<nat>)
      requires Distinct(vars) && StrictlyIncreasing(cl)
      modifies this`vars
      ensures vars == old(vars) + NewVars(old(vars), cl)
      ensures Distinct(vars) && Linked(vars, cl, nbs)
    {
      ghost var vs0 := vars;
      nbs := [];
      for n := 0 to |cl|
        invariant vars == vs0 + NewVars(vs0, cl[..n])
        invariant |nbs| == n
        invariant forall k :: 0 <= k < n ==> nbs[k] < |vars| && vars[nbs[k]] == cl[k]
      {
        var iter := FindVar(cl[n]);
        AppendStep(vs0, cl, n, vars, iter);
        PositionStep(cl, n, vars, nbs, iter);
        nbs := nbs + [iter];
        if iter == |vars| {
          vars := vars + [cl[n]];
        }
      }
      assert cl[..|cl|] == cl;
      AppendNewVarsDistinct(vs0, cl);
    }

    /**
     * `insert(cl)`: a cluster already present changes nothing; a new one is
     * appended, its variables not yet known are appended in its order, and
     * its cluster node gets one neighbour per member.
     */
    method Insert(cl: VarSet)
      requires Valid() && StrictlyIncreasing(cl)
      modifies this`vars, this`clusters, this`nb2
      ensures Valid() && Size() == |old(clusters)| + (if cl in old(clusters) then 0 else 1)
      ensures cl in clusters && forall x :: x in cl ==> x in vars
      ensures cl in old(clusters) ==>
        vars == old(vars) && clusters == old(clusters) && nb2 == old(nb2)
      ensures cl !in old(clusters) ==>
        clusters == old(clusters) + [cl] && vars == old(vars) + NewVars(old(vars), cl)
    {
      if cl !in clusters {
        ghost var vs0 := vars;
        clusters := clusters + [cl];
        var nbs := AppendNewVars(cl);
        LinkedAfterAppend(vs0, vars, clusters[..|clusters| - 1], nb2);
        nb2 := nb2 + [nbs];
      } else {
        var I :| 0 <= I < |clusters| && clusters[I] == cl;
        assert Linked(vars, cl, nb2[I]);
      }
    }

    /**
     * `eraseNonMaximal()`: walks the clusters and erases each one that is
     * not maximal among those still present.
     */
    method EraseNonMaximal()
      requires Valid()
      modifies this`clusters, this`nb2
      ensures Valid() && vars == old(vars)
      ensures forall I :: 0 <= I < |clusters| ==> Maximal(clusters, I)
      ensures exists kept ::
        KeptInOrder(old(clusters), clusters, kept) && OnlyNonMaximalDropped(old(clusters), kept, |old(clusters)|)
    {
      ghost var cls0 := clusters;
      ghost var kept: seq<nat> := ProgressStart(cls0);
      ghost var next := 0;
      var I := 0;
      while I < |clusters|
        invariant Valid()
        invariant Progress(cls0, clusters, kept, I, next)
        decreases |clusters| - I
      {
        var maximal := IsMaximal(I);
        if !maximal {
          ProgressErase(cls0, clusters, kept, I, next);
          EraseCluster(I);
          kept := Erase(kept, I);
        } else {
          ProgressKeep(cls0, clusters, kept, I, next);
          I := I + 1;
        }
        next := next + 1;
      }
    }

    /** The first cluster holding variable `i` (the head of `nb1(i)`), or `size()`. */
    method FirstHolder(i: nat) returns (J: nat)
      requires Valid() && i < |vars|
      ensures J <= |clusters|
      ensures forall K :: 0 <= K < J ==> vars[i] !in clusters[K]
      ensures J < |clusters| ==> vars[i] in clusters[J]
    {
      J := 0;
      while J < |clusters| && i !in nb2[J]
        invariant J <= |clusters|
        invariant forall K :: 0 <= K < J ==> vars[i] !in clusters[K]
      {
        NeighbourIff(vars, clusters[J], nb2[J], i);
        J := J + 1;
      }
      if J < |clusters| {
        NeighbourIff(vars, clusters[J], nb2[J], i);
      }
    }

    /** `eraseSubsuming(i)`: erases, one by one, every cluster holding variable `i`. */
    method EraseSubsuming(i: nat)
      requires Valid() && i < |vars|
      modifies this`clusters, this`nb2
      ensures Valid() && vars == old(vars)
      ensures forall I :: 0 <= I < |clusters| ==> vars[i] !in clusters[I]
      ensures clusters == ClustersWithout(old(clusters), vars[i])
    {
      var first: nat := FirstHolder(i);
      while first < |clusters|
        invariant Valid() && i < |vars|
        invariant ClustersWithout(clusters, vars[i]) == ClustersWithout(old(clusters), vars[i])
        invariant first <= |clusters|
        invariant forall K :: 0 <= K < first ==> vars[i] !in clusters[K]
        invariant first < |clusters| ==> vars[i] in clusters[first]
        decreases |clusters|
      {
        EraseHolderKeepsOthers(clusters, first, vars[i]);
        EraseCluster(first);
        first := FirstHolder(i);
      }
      NoHolderKeepsAll(clusters, vars[i]);
    }
  }
}
