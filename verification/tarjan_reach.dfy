/**
 * Why Tarjan's search finds the strongly connected components: reachability in the graph and the
 * invariants the search keeps about it.
 *
 * - Every vertex on the stack reaches every vertex above it (`StackReach`).
 * - A done vertex only has done successors (`DoneClosed`), so whatever a done vertex reaches is done.
 * - Two done vertices with the same component number reach each other (`CompSound`), and a done
 *   vertex reaches only vertices whose component number is not larger (`CompOrder`).
 *
 * While `dfs(v)` runs, every stack vertex reaches `v`, and each vertex it leaves on the stack has
 * its successors done or on the stack no lower than the smallest discovery time it returns
 * (`Settled`). When that time is the one of `v`, these successors are exactly the vertices popped
 * with `v`, which keeps `DoneClosed`.
 */
module TarjanReach {
  import opened TarjanState

  // ---------------------------------------------------------------- reachability

  /** A non-empty walk along the edges of the graph. */
  ghost predicate IsPath(adj: Graph, p: seq<V>)
  {
    |p| > 0 && forall i :: 0 <= i < |p| - 1 ==> p[i] in adj && p[i + 1] in adj[p[i]]
  }

  /** `y` is reachable from `x` by a walk of zero or more edges. */
  ghost predicate Reach(adj: Graph, x: V, y: V)
  {
    exists p :: IsPath(adj, p) && p[0] == x && p[|p| - 1] == y
  }

  lemma {:induction false} ReachRefl(adj: Graph, x: V)
    ensures Reach(adj, x, x)
  {
    assert IsPath(adj, [x]);
  }

  lemma {:induction false} ReachEdge(adj: Graph, x: V, y: V)
    requires x in adj && y in adj[x]
    ensures Reach(adj, x, y)
  {
    assert IsPath(adj, [x, y]);
  }

  lemma {:induction false} ReachTrans(adj: Graph, x: V, y: V, z: V)
    requires Reach(adj, x, y) && Reach(adj, y, z)
    ensures Reach(adj, x, z)
  {
    var p :| IsPath(adj, p) && p[0] == x && p[|p| - 1] == y;
    var q :| IsPath(adj, q) && q[0] == y && q[|q| - 1] == z;
    var r := p + q[1..];
    forall i | 0 <= i < |r| - 1
      ensures r[i] in adj && r[i + 1] in adj[r[i]]
    {
      if i < |p| - 1 {
        assert r[i] == p[i] && r[i + 1] == p[i + 1];
      } else {
        assert r[i] == q[i - |p| + 1] && r[i + 1] == q[i - |p| + 2];
      }
    }
    assert IsPath(adj, r) && r[0] == x && r[|r| - 1] == z;
  }

  /** An edge followed by a walk. */
  lemma {:induction false} ReachStep(adj: Graph, x: V, y: V, z: V)
    requires x in adj && y in adj[x] && Reach(adj, y, z)
    ensures Reach(adj, x, z)
  {
    ReachEdge(adj, x, y);
    ReachTrans(adj, x, y, z);
  }

  // ---------------------------------------------------------------- invariants of the search

  ghost predicate IsDone(st: map<V, U64>, x: V)
  {
    x in st && Decode(st[x]).Done?
  }

  /** Every vertex on the stack reaches every vertex above it. */
  ghost predicate StackReach(adj: Graph, stack: seq<V>)
  {
    forall i, j :: 0 <= i < j < |stack| ==> Reach(adj, stack[i], stack[j])
  }

  /** The successors of a done vertex are done. */
  ghost predicate DoneClosed(adj: Graph, st: map<V, U64>)
  {
    forall x, z :: IsDone(st, x) && x in adj && z in adj[x] ==> IsDone(st, z)
  }

  /** Done vertices that share a component number reach each other. */
  ghost predicate CompSound(adj: Graph, st: map<V, U64>, comp: map<V, nat>)
  {
    forall x, z :: IsDone(st, x) && IsDone(st, z) && x in comp && z in comp && comp[x] == comp[z] ==> Reach(adj, x, z)
  }

  /** A done vertex reaches only done vertices of a component number no larger than its own. */
  ghost predicate CompOrder(adj: Graph, st: map<V, U64>, comp: map<V, nat>)
  {
    forall x, z :: IsDone(st, x) && IsDone(st, z) && x in comp && z in comp && Reach(adj, x, z) ==> comp[z] <= comp[x]
  }

  ghost predicate SccOk(adj: Graph, st: map<V, U64>, comp: map<V, nat>, stack: seq<V>)
  {
    StackReach(adj, stack) && DoneClosed(adj, st) && CompSound(adj, st, comp) && CompOrder(adj, st, comp)
  }

  /** The vertices of `s` from index `k` on reach `v`. */
  ghost predicate RegionReach(adj: Graph, s: seq<V>, k: nat, v: V)
  {
    forall i :: k <= i < |s| ==> Reach(adj, s[i], v)
  }

  /** `z` is done, or on the stack with a discovery time of at least `m`. */
  ghost predicate Settled(st: map<V, U64>, z: V, m: nat)
  {
    z in st && (Decode(st[z]).Done? || (Decode(st[z]).OnStack? && Decode(st[z]).disc >= m))
  }

  ghost predicate NbrsSettled(adj: Graph, st: map<V, U64>, x: V, m: nat)
  {
    x in adj && forall z :: z in adj[x] ==> Settled(st, z, m)
  }

  /** The vertices of `s` from index `k` on have settled successors. */
  ghost predicate RegionSettled(adj: Graph, st: map<V, U64>, s: seq<V>, k: nat, m: nat)
  {
    forall i :: k <= i < |s| ==> NbrsSettled(adj, st, s[i], m)
  }

  /** Some vertex of `s` with discovery time `m` is reachable from `v`. */
  ghost predicate WitnessIn(adj: Graph, st: map<V, U64>, s: seq<V>, v: V, m: nat)
  {
    exists i :: 0 <= i < |s| && DiscAt(st, s[i]) == m && Reach(adj, v, s[i])
  }

  /** What the loop of `dfs(v)` keeps: the neighbours outside `todo` are settled. */
  ghost predicate ExploreInv(adj: Graph, st: map<V, U64>, stack: seq<V>, v: V, todo: set<V>,
                             minDisc: nat, minDisc0: nat, k: nat)
  {
    && v in adj
    && RegionReach(adj, stack, 0, v)
    && (minDisc == minDisc0 || WitnessIn(adj, st, stack, v, minDisc))
    && RegionSettled(adj, st, stack, k, minDisc)
    && (forall z :: z in adj[v] && z !in todo ==> Settled(st, z, minDisc))
  }

  // ---------------------------------------------------------------- keeping the invariants

  /** With nothing visited, the invariants hold. */
  lemma {:induction false} SccStart(adj: Graph)
    ensures SccOk(adj, map v | v in adj :: NOT_DONE as U64, map v | v in adj :: 0, [])
  {
  }

  /** An empty stack reaches any vertex. */
  lemma {:induction false} EmptyStackReaches(adj: Graph, v: V)
    ensures RegionReach(adj, [], 0, v)
  {
  }

  /** Pushing a vertex that every stack vertex reaches. */
  lemma {:induction false} VisitedScc(adj: Graph, st: map<V, U64>, comp: map<V, nat>, stack: seq<V>, v: V, x: U64)
    requires SccOk(adj, st, comp, stack) && RegionReach(adj, stack, 0, v)
    requires v in st && st[v] == NOT_DONE && x > NOT_DONE
    ensures SccOk(adj, st[v := x], comp, stack + [v])
    ensures RegionReach(adj, stack + [v], 0, v)
  {
    var st', s' := st[v := x], stack + [v];
    forall w ensures IsDone(st', w) <==> IsDone(st, w) {
    }
    forall i, j | 0 <= i < j < |s'| ensures Reach(adj, s'[i], s'[j]) {
      if j == |stack| {
        assert s'[i] == stack[i];
      } else {
        assert s'[i] == stack[i] && s'[j] == stack[j];
      }
    }
    forall i | 0 <= i < |s'| ensures Reach(adj, s'[i], v) {
      if i == |stack| {
        ReachRefl(adj, v);
      } else {
        assert s'[i] == stack[i];
      }
    }
  }

  /** The loop of `dfs(v)` starts with no neighbour looked at. */
  lemma {:induction false} ExploreStart(adj: Graph, st: map<V, U64>, stack: seq<V>, v: V, m: nat)
    requires v in adj && RegionReach(adj, stack, 0, v)
    ensures ExploreInv(adj, st, stack, v, adj[v], m, m, |stack|)
  {
  }

  /** A neighbour that is already done. */
  lemma {:induction false} ExploreDone(adj: Graph, st: map<V, U64>, stack: seq<V>, v: V, todo: set<V>,
                                       minDisc: nat, minDisc0: nat, k: nat, u: V)
    requires ExploreInv(adj, st, stack, v, todo, minDisc, minDisc0, k)
    requires u in st && Decode(st[u]).Done?
    ensures ExploreInv(adj, st, stack, v, todo - {u}, minDisc, minDisc0, k)
  {
  }

  /** A neighbour on the stack: the smallest discovery time found is lowered to its time. */
  lemma {:induction false} ExploreOnStack(adj: Graph, st: map<V, U64>, stack: seq<V>, v: V, todo: set<V>,
                                          minDisc: nat, minDisc0: nat, k: nat, u: V)
    requires ExploreInv(adj, st, stack, v, todo, minDisc, minDisc0, k) && StackOk(st, stack)
    requires u in adj[v] && u in st && Decode(st[u]).OnStack?
    ensures ExploreInv(adj, st, stack, v, todo - {u}, Min(Decode(st[u]).disc, minDisc), minDisc0, k)
  {
    var d := Decode(st[u]).disc;
    var m := Min(d, minDisc);
    forall i | k <= i < |stack| ensures NbrsSettled(adj, st, stack[i], m) {
      assert NbrsSettled(adj, st, stack[i], minDisc);
    }
    forall z | z in adj[v] && z !in todo - {u} ensures Settled(st, z, m) {
      if z != u {
        assert Settled(st, z, minDisc);
      }
    }
    if d < minDisc {
      var i :| 0 <= i < |stack| && stack[i] == u;
      ReachEdge(adj, v, u);
      assert DiscAt(st, stack[i]) == m && Reach(adj, v, stack[i]);
    }
  }

  /** A state reached by `Grows` keeps the settled vertices of the earlier one. */
  lemma {:induction false} SettledGrows(st0: map<V, U64>, comp0: map<V, nat>, s0: seq<V>, t0: nat,
                                        st: map<V, U64>, comp: map<V, nat>, stack: seq<V>, time: nat,
                                        z: V, m: nat, m': nat)
    requires Grows(st0, comp0, s0, t0, st, comp, stack, time) && Settled(st0, z, m) && m' <= m
    ensures Settled(st, z, m')
  {
    assert st0[z] != NOT_DONE;
    GrowsKeeps(st0, comp0, s0, t0, st, comp, stack, time, z);
  }

  /**
   * A neighbour `u` searched by `dfs(u)`: the vertices it leaves on the stack reach a vertex of the
   * older stack, so they reach `v`; its result lowers the smallest discovery time found.
   */
  lemma {:induction false} ExploreSearched(adj: Graph, st1: map<V, U64>, comp1: map<V, nat>, s1: seq<V>, t1: nat,
                                           st: map<V, U64>, comp: map<V, nat>, stack: seq<V>, time: nat,
                                           v: V, todo: set<V>, minDisc: nat, minDisc0: nat, k: nat, u: V, found: nat)
    requires ExploreInv(adj, st1, s1, v, todo, minDisc, minDisc0, k) && k <= |s1|
    requires StackOk(st1, s1) && Grows(st1, comp1, s1, t1, st, comp, stack, time)
    requires u in adj[v] && u in st1 && st1[u] == NOT_DONE && u in st && st[u] != NOT_DONE
    requires minDisc <= minDisc0 < t1 && found <= t1
    requires RegionReach(adj, stack, |s1|, u) && RegionSettled(adj, st, stack, |s1|, found)
    requires found < t1 ==> WitnessIn(adj, st, s1, u, found)
    requires found == t1 ==> stack == s1
    ensures ExploreInv(adj, st, stack, v, todo - {u}, Min(found, minDisc), minDisc0, k)
  {

    var m := Min(found, minDisc);
    GrowsPrefix(st1, comp1, s1, t1, st, comp, stack, time);
    GrowsKeepsAll(st1, comp1, s1, t1, st, comp, stack, time);
    forall i | 0 <= i < |stack| ensures Reach(adj, stack[i], v) {
      if i < |s1| {
        assert stack[i] == s1[i];
      } else {
        var j :| 0 <= j < |s1| && DiscAt(st, s1[j]) == found && Reach(adj, u, s1[j]);
        assert Reach(adj, s1[j], v);
        ReachTrans(adj, u, s1[j], v);
        ReachTrans(adj, stack[i], u, v);
      }
    }
    if found < minDisc {
      var j :| 0 <= j < |s1| && DiscAt(st, s1[j]) == found && Reach(adj, u, s1[j]);
      ReachStep(adj, v, u, s1[j]);
      assert stack[j] == s1[j];
    } else if minDisc != minDisc0 {
      var j :| 0 <= j < |s1| && DiscAt(st1, s1[j]) == minDisc && Reach(adj, v, s1[j]);
      assert s1[j] in st1 && st1[s1[j]] != NOT_DONE;
      assert stack[j] == s1[j];
    }
    forall i | k <= i < |stack| ensures NbrsSettled(adj, st, stack[i], m) {
      if i < |s1| {
        assert stack[i] == s1[i] && NbrsSettled(adj, st1, s1[i], minDisc);
        forall z | z in adj[stack[i]] ensures Settled(st, z, m) {
          SettledGrows(st1, comp1, s1, t1, st, comp, stack, time, z, minDisc, m);
        }
      } else {
        assert NbrsSettled(adj, st, stack[i], found);
      }
    }
    assert t1 <= DiscAt(st, u);
    forall z | z in adj[v] && z !in todo - {u} ensures Settled(st, z, m) {
      if z != u {
        SettledGrows(st1, comp1, s1, t1, st, comp, stack, time, z, minDisc, m);
      }
    }
  }

  /** The vertices that reach `v` reach its successors too. */
  lemma {:induction false} RegionStep(adj: Graph, s: seq<V>, v: V, u: V)
    requires RegionReach(adj, s, 0, v) && v in adj && u in adj[v]
    ensures RegionReach(adj, s, 0, u)
  {
    forall i | 0 <= i < |s| ensures Reach(adj, s[i], u) {
      ReachEdge(adj, v, u);
      ReachTrans(adj, s[i], v, u);
    }
  }

  /** The neighbour `u` that `dfs(v)` is about to search is reached from the whole stack. */
  lemma {:induction false} ExploreReaches(adj: Graph, st: map<V, U64>, stack: seq<V>, v: V, todo: set<V>,
                                          minDisc: nat, minDisc0: nat, k: nat, u: V)
    requires ExploreInv(adj, st, stack, v, todo, minDisc, minDisc0, k) && u in adj[v]
    ensures RegionReach(adj, stack, 0, u)
  {
    RegionStep(adj, stack, v, u);
  }

  /** The stack of a valid state. */
  lemma {:induction false} ValidStack(adj: Graph, comp: map<V, nat>, st: map<V, U64>, n: nat, stack: seq<V>, time: nat)
    requires ValidState(adj, comp, st, n, stack, time)
    ensures StackOk(st, stack)
  {
  }

  /** The loop of `dfs(v)` ends with every neighbour of `v` settled. */
  lemma {:induction false} ExploreEnd(adj: Graph, st: map<V, U64>, stack: seq<V>, v: V,
                                      minDisc: nat, minDisc0: nat, k: nat)
    requires ExploreInv(adj, st, stack, v, {}, minDisc, minDisc0, k)
    ensures RegionReach(adj, stack, 0, v) && RegionSettled(adj, st, stack, k, minDisc) && NbrsSettled(adj, st, v, minDisc)
    ensures minDisc == minDisc0 || WitnessIn(adj, st, stack, v, minDisc)
  {
  }

  /** `v`, at index `k`, and the vertices above it have settled successors. */
  lemma {:induction false} RegionFrom(adj: Graph, st: map<V, U64>, stack: seq<V>, k: nat, v: V, m: nat)
    requires k < |stack| && stack[k] == v
    requires RegionSettled(adj, st, stack, k + 1, m) && NbrsSettled(adj, st, v, m)
    requires RegionReach(adj, stack, 0, v)
    ensures RegionSettled(adj, st, stack, k, m) && RegionReach(adj, stack, k, v)
  {
  }

  /** A region that is empty. */
  lemma {:induction false} EmptyRegion(adj: Graph, st: map<V, U64>, s: seq<V>, v: V, m: nat)
    ensures RegionReach(adj, s, |s|, v) && RegionSettled(adj, st, s, |s|, m)
  {
  }

  /** A vertex found on the stack with a time older than the search's start lies below the search. */
  lemma {:induction false} WitnessBelow(st0: map<V, U64>, comp0: map<V, nat>, s0: seq<V>, t0: nat,
                                        st: map<V, U64>, comp: map<V, nat>, stack: seq<V>, time: nat,
                                        adj: Graph, v: V, m: nat)
    requires Grows(st0, comp0, s0, t0, st, comp, stack, time) && StackOk(st, stack)
    requires WitnessIn(adj, st, stack, v, m) && m < t0
    ensures WitnessIn(adj, st, s0, v, m)
  {
    var i :| 0 <= i < |stack| && DiscAt(st, stack[i]) == m && Reach(adj, v, stack[i]);
    forall j | |s0| <= j < |stack| ensures t0 <= DiscAt(st, stack[j]) {
      assert stack[j] in st0 && st0[stack[j]] == NOT_DONE;
      assert Decode(st[stack[j]]).OnStack?;
    }
    assert s0[i] == stack[i];
  }

  /** Whatever a done vertex reaches is done. */
  lemma {:induction false} DoneReach(adj: Graph, st: map<V, U64>, x: V, z: V)
    requires DoneClosed(adj, st) && IsDone(st, x) && Reach(adj, x, z)
    ensures IsDone(st, z)
  {
    var p :| IsPath(adj, p) && p[0] == x && p[|p| - 1] == z;
    var i := 0;
    while i < |p| - 1
      invariant 0 <= i < |p| && IsDone(st, p[i])
    {
      assert p[i] in adj && p[i + 1] in adj[p[i]];
      i := i + 1;
    }
  }

  /**
   * Popping `s0[k..]` into the new component `n`, when its vertices reach `s0[k]` and their
   * successors are done or among them, keeps the invariants.
   */
  lemma {:induction false} PoppedScc(adj: Graph, st0: map<V, U64>, comp0: map<V, nat>, s0: seq<V>, time: nat,
                                     st: map<V, U64>, comp: map<V, nat>, k: nat, n: nat)
    requires n >= 1 && ValidState(adj, comp0, st0, n - 1, s0, time) && k < |s0|
    requires SccOk(adj, st0, comp0, s0) && PopRel(st0, comp0, s0, st, comp, s0[..k], n)
    requires RegionReach(adj, s0, k, s0[k]) && RegionSettled(adj, st0, s0, k, DiscAt(st0, s0[k]))
    ensures SccOk(adj, st, comp, s0[..k])
  {
    hide ValidState, PopRel;
    PopFactsOf(adj, st0, comp0, s0, time, st, comp, k, n);
    PoppedClosed(adj, st0, comp0, s0, st, comp, k, n);
    PoppedSound(adj, st0, comp0, s0, st, comp, k, n);
    PoppedOrder(adj, st0, comp0, s0, st, comp, k, n);
  }

  /** Which vertices are done after popping `s0[k..]`, and with which component. */
  ghost predicate PopFacts(st0: map<V, U64>, comp0: map<V, nat>, s0: seq<V>, st: map<V, U64>, comp: map<V, nat>, k: nat, n: nat)
  {
    && k < |s0|
    && (forall i, j :: 0 <= i < j < |s0| ==> DiscAt(st0, s0[i]) < DiscAt(st0, s0[j]))
    && (forall i :: 0 <= i < |s0| ==> s0[i] in st0 && Decode(st0[s0[i]]).OnStack?)
    && (forall z :: z in st0 && Decode(st0[z]).OnStack? ==> z in s0)
    && (forall i :: k <= i < |s0| ==> IsDone(st, s0[i]) && s0[i] in comp && comp[s0[i]] == n)
    && (forall w :: w in st0 && w !in s0[k..] ==> w in st && w in comp && w in comp0 && st[w] == st0[w] && comp[w] == comp0[w])
    && (forall w :: IsDone(st0, w) ==> w in comp0 && comp0[w] < n)
    && st.Keys == st0.Keys
  }

  lemma {:induction false} PopFactsOf(adj: Graph, st0: map<V, U64>, comp0: map<V, nat>, s0: seq<V>, time: nat,
                                    st: map<V, U64>, comp: map<V, nat>, k: nat, n: nat)
    requires n >= 1 && ValidState(adj, comp0, st0, n - 1, s0, time) && k < |s0|
    requires PopRel(st0, comp0, s0, st, comp, s0[..k], n)
    ensures PopFacts(st0, comp0, s0, st, comp, k, n)
  {
    hide ValidState, PopRel;
    ValidStack(adj, comp0, st0, n - 1, s0, time);
    DoneBelow(adj, comp0, st0, n - 1, s0, time);
    PoppedFacts(st0, comp0, s0, st, comp, k, n);
  }

  /** The done vertices of a valid state have component numbers up to the count. */
  lemma {:induction false} DoneBelow(adj: Graph, comp: map<V, nat>, st: map<V, U64>, n: nat, stack: seq<V>, time: nat)
    requires ValidState(adj, comp, st, n, stack, time)
    ensures forall w :: IsDone(st, w) ==> w in comp && comp[w] <= n
  {
  }

  /** What popping the stack down to index `k` leaves in the state. */
  lemma {:induction false} PoppedFacts(st0: map<V, U64>, comp0: map<V, nat>, s0: seq<V>, st: map<V, U64>,
                                       comp: map<V, nat>, k: nat, n: nat)
    requires k < |s0| && PopRel(st0, comp0, s0, st, comp, s0[..k], n)
    ensures forall i :: k <= i < |s0| ==> IsDone(st, s0[i]) && s0[i] in comp && comp[s0[i]] == n
    ensures forall w :: w in st0 && w !in s0[k..] ==> w in st && w in comp && w in comp0 && st[w] == st0[w] && comp[w] == comp0[w]
    ensures st.Keys == st0.Keys
  {
    assert |s0[..k]| == k;
  }

  /** A vertex of `st0` is either popped, at some index from `k`, or kept as it was. */
  lemma {:induction false} PoppedOrKept(st0: map<V, U64>, comp0: map<V, nat>, s0: seq<V>, st: map<V, U64>,
                                        comp: map<V, nat>, k: nat, n: nat, w: V)
    requires PopFacts(st0, comp0, s0, st, comp, k, n) && (w in st0 || w in st)
    ensures w in st0 && k < |s0|
    ensures w in s0[k..] ==> exists i :: k <= i < |s0| && s0[i] == w
    ensures w in s0[k..] ==> IsDone(st, w) && w in comp && comp[w] == n && Decode(st0[w]).OnStack?
    ensures w !in s0[k..] ==> w in st && w in comp && w in comp0 && st[w] == st0[w] && comp[w] == comp0[w]
    ensures IsDone(st0, w) ==> w in comp0 && comp0[w] < n
  {
    if w in s0[k..] {
      var j :| 0 <= j < |s0[k..]| && s0[k..][j] == w;
      assert s0[k + j] == w;
    }
  }

  lemma {:induction false} PoppedClosed(adj: Graph, st0: map<V, U64>, comp0: map<V, nat>, s0: seq<V>,
                                        st: map<V, U64>, comp: map<V, nat>, k: nat, n: nat)
    requires PopFacts(st0, comp0, s0, st, comp, k, n) && DoneClosed(adj, st0)
    requires RegionSettled(adj, st0, s0, k, DiscAt(st0, s0[k]))
    ensures DoneClosed(adj, st)
  {
    hide PopFacts;
    forall x, z | IsDone(st, x) && x in adj && z in adj[x] ensures IsDone(st, z) {
      PoppedOrKept(st0, comp0, s0, st, comp, k, n, x);
      if x in s0[k..] {
        var i :| k <= i < |s0| && s0[i] == x;
        assert NbrsSettled(adj, st0, s0[i], DiscAt(st0, s0[k]));
        SettledPopped(st0, comp0, s0, st, comp, k, n, z);
      } else {
        assert IsDone(st0, x);
        assert IsDone(st0, z);
        SettledPopped(st0, comp0, s0, st, comp, k, n, z);
      }
    }
  }

  /** A vertex settled for the time of `s0[k]` is done once `s0[k..]` is popped. */
  lemma {:induction false} SettledPopped(st0: map<V, U64>, comp0: map<V, nat>, s0: seq<V>, st: map<V, U64>,
                                         comp: map<V, nat>, k: nat, n: nat, z: V)
    requires PopFacts(st0, comp0, s0, st, comp, k, n) && Settled(st0, z, DiscAt(st0, s0[k]))
    ensures IsDone(st, z)
  {
    PoppedOrKept(st0, comp0, s0, st, comp, k, n, z);
    if Decode(st0[z]).OnStack? {
      var j :| 0 <= j < |s0| && s0[j] == z;
      forall i | 0 <= i < k ensures DiscAt(st0, s0[i]) < DiscAt(st0, s0[k]) {
      }
      assert s0[k..][j - k] == z;
    }
    if z in s0[k..] {
      var i :| k <= i < |s0| && s0[i] == z;
    }
  }

  lemma {:induction false} PoppedSound(adj: Graph, st0: map<V, U64>, comp0: map<V, nat>, s0: seq<V>,
                                       st: map<V, U64>, comp: map<V, nat>, k: nat, n: nat)
    requires k < |s0| && PopFacts(st0, comp0, s0, st, comp, k, n) && SccOk(adj, st0, comp0, s0)
    requires RegionReach(adj, s0, k, s0[k])
    ensures CompSound(adj, st, comp)
  {
    hide PopFacts;
    var v := s0[k];
    forall x, z | IsDone(st, x) && IsDone(st, z) && x in comp && z in comp && comp[x] == comp[z]
      ensures Reach(adj, x, z)
    {
      PoppedOrKept(st0, comp0, s0, st, comp, k, n, x);
      PoppedOrKept(st0, comp0, s0, st, comp, k, n, z);
      if x in s0[k..] && z in s0[k..] {
        var i :| k <= i < |s0| && s0[i] == x;
        var j :| k <= j < |s0| && s0[j] == z;
        assert Reach(adj, x, v);
        if j == k {
          ReachRefl(adj, v);
        } else {
          assert Reach(adj, s0[k], s0[j]);
        }
        ReachTrans(adj, x, v, z);
      } else if x !in s0[k..] && z !in s0[k..] {
        assert IsDone(st0, x) && IsDone(st0, z);
      }
    }
  }

  lemma {:induction false} PoppedOrder(adj: Graph, st0: map<V, U64>, comp0: map<V, nat>, s0: seq<V>,
                                       st: map<V, U64>, comp: map<V, nat>, k: nat, n: nat)
    requires PopFacts(st0, comp0, s0, st, comp, k, n) && SccOk(adj, st0, comp0, s0)
    ensures CompOrder(adj, st, comp)
  {
    hide PopFacts;
    forall x, z | IsDone(st, x) && IsDone(st, z) && x in comp && z in comp && Reach(adj, x, z)
      ensures comp[z] <= comp[x]
    {
      PoppedOrKept(st0, comp0, s0, st, comp, k, n, x);
      PoppedOrKept(st0, comp0, s0, st, comp, k, n, z);
      if z in s0[k..] {
        var j :| k <= j < |s0| && s0[j] == z;
        if x !in s0[k..] {
          assert IsDone(st0, x);
          DoneReach(adj, st0, x, z);
          assert false;
        } else {
          var i :| k <= i < |s0| && s0[i] == x;
        }
      } else if x in s0[k..] {
        var i :| k <= i < |s0| && s0[i] == x;
        assert IsDone(st0, z);
      } else {
        assert IsDone(st0, x) && IsDone(st0, z);
      }
    }
  }

  /**
   * When the search is over, component numbers are the strongly connected components, numbered so
   * that a vertex reaches only components with a number no larger than its own.
   */
  lemma {:induction false} SccFinished(adj: Graph, st: map<V, U64>, comp: map<V, nat>)
    requires forall v :: v in adj ==> IsDone(st, v) && v in comp
    requires SccOk(adj, st, comp, [])
    ensures forall u, w :: u in adj && w in adj ==> (comp[u] == comp[w] <==> Reach(adj, u, w) && Reach(adj, w, u))
    ensures forall u, w :: u in adj && w in adj && Reach(adj, u, w) ==> comp[w] <= comp[u]
  {
  }
}
