/**
 * Tarjan's strongly connected components, as used by the fluent hierarchy
 * (planning/planning/src/chronicles/preprocessing/fluent_hierarchy.rs, module `tarjan`).
 *
 * The state of a vertex is a u64 whose most significant bit (`NOT_DONE`) marks a vertex that is
 * not yet assigned to a component: `NOT_DONE` alone is an unvisited vertex, `NOT_DONE` plus a
 * discovery time is a vertex on the stack, and a bare discovery time is a finished vertex.
 */
module TarjanState {
  type V = nat

  /** Adjacency sets, keyed by the vertices of the graph. */
  type Graph = map<V, set<V>>

  const NOT_DONE: nat := 0x8000_0000_0000_0000
  const U64_LIMIT: nat := 0x1_0000_0000_0000_0000

  type U64 = x: nat | x < U64_LIMIT

  // ---------------------------------------------------------------- u64 bit operations

  function Pow2(n: nat): nat
  {
    if n == 0 then 1 else 2 * Pow2(n - 1)
  }

  lemma {:induction false} Pow2Add(a: nat, b: nat)
    ensures Pow2(a + b) == Pow2(a) * Pow2(b)
    decreases a
  {
    if a > 0 {
      Pow2Add(a - 1, b);
    }
  }

  lemma {:induction false} Pow2Word()
    ensures Pow2(63) == NOT_DONE && Pow2(64) == U64_LIMIT
  {
    assert Pow2(8) == 256;
    Pow2Add(8, 8);
    assert Pow2(16) == 0x1_0000;
    Pow2Add(16, 16);
    assert Pow2(32) == 0x1_0000_0000;
    Pow2Add(32, 31);
    Pow2Add(32, 32);
  }

  /** Bitwise exclusive or of the low `bits` bits. */
  function Xor(a: nat, b: nat, bits: nat): (r: nat)
    ensures r < Pow2(bits)
  {
    if bits == 0 then 0
    else (if a % 2 != b % 2 then 1 else 0) + 2 * Xor(a / 2, b / 2, bits - 1)
  }

  /** Bitwise and of the low `bits` bits. */
  function And(a: nat, b: nat, bits: nat): (r: nat)
    ensures r < Pow2(bits)
  {
    if bits == 0 then 0
    else (if a % 2 == 1 && b % 2 == 1 then 1 else 0) + 2 * And(a / 2, b / 2, bits - 1)
  }

  lemma {:induction false} XorCommutes(a: nat, b: nat, bits: nat)
    ensures Xor(a, b, bits) == Xor(b, a, bits)
    decreases bits
  {
    if bits > 0 {
      XorCommutes(a / 2, b / 2, bits - 1);
    }
  }

  /** Exclusive or with the top bit of a word flips that bit and keeps the others. */
  lemma {:induction false} XorTopBit(x: nat, k: nat)
    requires 1 <= k && x < Pow2(k)
    ensures Xor(x, Pow2(k - 1), k) == if x >= Pow2(k - 1) then x - Pow2(k - 1) else x + Pow2(k - 1)
    decreases k
  {
    if k > 1 {
      var half := Pow2(k - 2);
      assert Pow2(k - 1) == 2 * half;
      assert Pow2(k - 1) % 2 == 0 && Pow2(k - 1) / 2 == half;
      XorTopBit(x / 2, k - 1);
      assert x / 2 >= half <==> x >= Pow2(k - 1);
    }
  }

  /** And with the top bit of a word is non-zero exactly when that bit is set. */
  lemma {:induction false} AndTopBit(x: nat, k: nat)
    requires 1 <= k && x < Pow2(k)
    ensures And(x, Pow2(k - 1), k) != 0 <==> x >= Pow2(k - 1)
    decreases k
  {
    if k > 1 {
      var half := Pow2(k - 2);
      assert Pow2(k - 1) == 2 * half;
      assert Pow2(k - 1) % 2 == 0 && Pow2(k - 1) / 2 == half;
      AndTopBit(x / 2, k - 1);
      assert x / 2 >= half <==> x >= Pow2(k - 1);
    }
  }

  function Xor64(a: U64, b: U64): U64
  {
    Pow2Word();
    Xor(a, b, 64)
  }

  function And64(a: U64, b: U64): U64
  {
    Pow2Word();
    And(a, b, 64)
  }

  // ---------------------------------------------------------------- vertex states

  /** `set_done`: flips the not-done marker. */
  function SetDone(x: U64): (r: U64)
    ensures r == if x >= NOT_DONE then x - NOT_DONE else x + NOT_DONE
  {
    Pow2Word();
    XorTopBit(x, 64);
    Xor64(x, NOT_DONE)
  }

  /** `is_in_stack`: a non-zero state with the marker set (an unvisited state qualifies too). */
  function IsInStack(x: U64): (r: bool)
    ensures r <==> x >= NOT_DONE
  {
    Pow2Word();
    AndTopBit(x, 64);
    x != 0 && And64(x, NOT_DONE) != 0
  }

  function IsUnvisited(x: U64): bool
  {
    x == NOT_DONE
  }

  /** `get_discover_time`: the state without the marker. */
  function GetDiscoverTime(x: U64): (r: U64)
    ensures x >= NOT_DONE ==> r == x - NOT_DONE
    ensures x < NOT_DONE ==> r == x + NOT_DONE
  {
    Pow2Word();
    XorTopBit(x, 64);
    Xor64(x, NOT_DONE)
  }

  /** The state of a vertex as the algorithm reads it. */
  datatype VState = Unvisited | OnStack(disc: nat) | Done(disc: nat)

  function Decode(x: U64): VState
  {
    if x == NOT_DONE then Unvisited
    else if x > NOT_DONE then OnStack(x - NOT_DONE)
    else Done(x)
  }

  function DiscOf(s: VState): nat
  {
    if s.Unvisited? then 0 else s.disc
  }

  /** Marking an unvisited vertex with a discovery time puts it on the stack with that time. */
  lemma {:induction false} MarkVisited(t: U64)
    requires 0 < t < NOT_DONE
    ensures Xor64(NOT_DONE, t) == NOT_DONE + t && Decode(Xor64(NOT_DONE, t)) == OnStack(t)
    ensures IsInStack(Xor64(NOT_DONE, t)) && GetDiscoverTime(Xor64(NOT_DONE, t)) == t
  {
    Pow2Word();
    XorCommutes(NOT_DONE, t, 64);
    XorTopBit(t, 64);
  }

  /** The helpers read the state as the decoding does. */
  lemma {:induction false} HelpersDecode(x: U64)
    ensures IsUnvisited(x) <==> Decode(x).Unvisited?
    ensures IsInStack(x) <==> Decode(x).Unvisited? || Decode(x).OnStack?
    ensures Decode(x).OnStack? ==> GetDiscoverTime(x) == Decode(x).disc && Decode(SetDone(x)) == Done(Decode(x).disc)
  {
  }

  predicate Closed(adj: Graph)
  {
    forall v, u :: v in adj && u in adj[v] ==> u in adj
  }

  function DiscAt(st: map<V, U64>, w: V): nat
  {
    if w in st then DiscOf(Decode(st[w])) else 0
  }

  ghost function UnvisitedOf(st: map<V, U64>): set<V>
  {
    set v | v in st && st[v] == NOT_DONE
  }

  /** The discovery time of the bottom of the stack, or the next time when the stack is empty. */
  function Floor(st: map<V, U64>, stack: seq<V>, time: nat): nat
  {
    if stack == [] then time else DiscAt(st, stack[0])
  }

  // ---------------------------------------------------------------- invariants of the search state

  ghost predicate Shape(adj: Graph, comp: map<V, nat>, st: map<V, U64>, time: nat)
  {
    st.Keys == adj.Keys && comp.Keys == adj.Keys && Closed(adj) && 1 <= time
  }

  /** The stack holds exactly the vertices on the stack, by increasing discovery time. */
  ghost predicate StackOk(st: map<V, U64>, stack: seq<V>)
  {
    && (forall i :: 0 <= i < |stack| ==> stack[i] in st && Decode(st[stack[i]]).OnStack?)
    && (forall v :: v in st && Decode(st[v]).OnStack? ==> v in stack)
    && (forall i, j :: 0 <= i < j < |stack| ==> DiscAt(st, stack[i]) < DiscAt(st, stack[j]))
  }

  ghost predicate TimesOk(st: map<V, U64>, time: nat)
  {
    forall v :: v in st && !Decode(st[v]).Unvisited? ==> 0 < Decode(st[v]).disc < time
  }

  /** Done vertices have a component in `1..=n`; the others have none yet. */
  ghost predicate ComponentsOk(st: map<V, U64>, comp: map<V, nat>, n: nat)
  {
    forall v :: v in st ==> v in comp && (Decode(st[v]).Done? ==> 1 <= comp[v] <= n) && (!Decode(st[v]).Done? ==> comp[v] == 0)
  }

  ghost predicate ValidState(adj: Graph, comp: map<V, nat>, st: map<V, U64>, n: nat, stack: seq<V>, time: nat)
  {
    Shape(adj, comp, st, time) && StackOk(st, stack) && TimesOk(st, time) && ComponentsOk(st, comp, n)
  }

  /**
   * How a search changes the state: visited vertices keep their state and component, vertices
   * visited meanwhile get discovery times from the elapsed interval, the stack only grows above
   * its old contents and only with newly visited vertices, and each visit takes one time unit.
   */
  ghost predicate Grows(st0: map<V, U64>, comp0: map<V, nat>, s0: seq<V>, t0: nat,
                        st: map<V, U64>, comp: map<V, nat>, stack: seq<V>, time: nat)
  {
    && t0 <= time
    && time + |UnvisitedOf(st)| == t0 + |UnvisitedOf(st0)|
    && (forall w :: w in st0 && st0[w] != NOT_DONE ==>
          w in st && st[w] == st0[w] && w in comp && w in comp0 && comp[w] == comp0[w])
    && (forall w :: w in st0 && st0[w] == NOT_DONE && w in st && st[w] != NOT_DONE ==> t0 <= DiscAt(st, w) < time)
    && |s0| <= |stack| && stack[..|s0|] == s0
    && (forall i :: |s0| <= i < |stack| ==> stack[i] in st0 && st0[stack[i]] == NOT_DONE)
  }

  lemma {:induction false} GrowsRefl(st: map<V, U64>, comp: map<V, nat>, stack: seq<V>, time: nat)
    requires st.Keys <= comp.Keys
    ensures Grows(st, comp, stack, time, st, comp, stack, time)
  {
    assert stack[..|stack|] == stack;
  }

  lemma {:induction false} GrowsTrans(st0: map<V, U64>, comp0: map<V, nat>, s0: seq<V>, t0: nat,
                                      st1: map<V, U64>, comp1: map<V, nat>, s1: seq<V>, t1: nat,
                                      st2: map<V, U64>, comp2: map<V, nat>, s2: seq<V>, t2: nat)
    requires Grows(st0, comp0, s0, t0, st1, comp1, s1, t1) && Grows(st1, comp1, s1, t1, st2, comp2, s2, t2)
    requires st1.Keys == st0.Keys
    ensures Grows(st0, comp0, s0, t0, st2, comp2, s2, t2)
  {
    assert s2[..|s0|] == s1[..|s0|];
    forall i | |s0| <= i < |s2| ensures s2[i] in st0 && st0[s2[i]] == NOT_DONE {
      if i < |s1| {
        assert s2[i] == s1[i];
      }
    }
  }

  lemma {:induction false} VisitedValid(adj: Graph, comp: map<V, nat>, st: map<V, U64>, n: nat, stack: seq<V>, time: nat,
                                        v: V, x: U64)
    requires ValidState(adj, comp, st, n, stack, time) && v in st && st[v] == NOT_DONE && x == NOT_DONE + time
    ensures ValidState(adj, comp, st[v := x], n, stack + [v], time + 1)
    ensures 0 < time && st.Keys == comp.Keys
    ensures Floor(st[v := x], stack + [v], time + 1) == Floor(st, stack, time) <= time
  {
    hide StackOk, TimesOk, ComponentsOk;
    VisitedStack(st, stack, time, v, x);
    VisitedTimes(st, time, v, x);
    VisitedComponents(st, comp, n, v, x);
  }

  lemma {:induction false} VisitedStack(st: map<V, U64>, stack: seq<V>, time: nat, v: V, x: U64)
    requires StackOk(st, stack) && TimesOk(st, time) && v in st && st[v] == NOT_DONE && x == NOT_DONE + time
    requires 0 < time
    ensures StackOk(st[v := x], stack + [v])
    ensures Floor(st[v := x], stack + [v], time + 1) == Floor(st, stack, time) <= time
  {
    var st', stack' := st[v := x], stack + [v];
    if stack != [] {
      assert stack[0] in st && Decode(st[stack[0]]).OnStack?;
    }
    forall i | 0 <= i < |stack| ensures DiscAt(st', stack[i]) == DiscAt(st, stack[i]) < time {
      assert stack[i] != v;
    }
    assert DiscAt(st', v) == time && stack'[|stack|] == v;
    forall w | w in st' && Decode(st'[w]).OnStack? ensures w in stack' {
      if w != v {
        assert w in stack;
      }
    }
  }

  lemma {:induction false} VisitedTimes(st: map<V, U64>, time: nat, v: V, x: U64)
    requires TimesOk(st, time) && v in st && st[v] == NOT_DONE && x == NOT_DONE + time && 1 <= time
    ensures TimesOk(st[v := x], time + 1)
  {
  }

  lemma {:induction false} VisitedComponents(st: map<V, U64>, comp: map<V, nat>, n: nat, v: V, x: U64)
    requires ComponentsOk(st, comp, n) && v in st && st[v] == NOT_DONE && x >= NOT_DONE
    ensures ComponentsOk(st[v := x], comp, n)
  {
  }

  lemma {:induction false} VisitedGrows(st: map<V, U64>, comp: map<V, nat>, stack: seq<V>, time: nat, v: V, x: U64)
    requires v in st && st[v] == NOT_DONE && 0 < time && x == NOT_DONE + time && st.Keys == comp.Keys
    ensures Grows(st, comp, stack, time, st[v := x], comp, stack + [v], time + 1)
    ensures |UnvisitedOf(st[v := x])| < |UnvisitedOf(st)|
    ensures time + 1 + |UnvisitedOf(st[v := x])| == time + |UnvisitedOf(st)|
  {
    var st' := st[v := x];
    assert UnvisitedOf(st) == UnvisitedOf(st') + {v} && v !in UnvisitedOf(st');
    assert |UnvisitedOf(st)| == |UnvisitedOf(st')| + 1;
    assert DiscAt(st', v) == time;
    assert (stack + [v])[..|stack|] == stack;
  }

  /** Once `v` is visited, every vertex taken from `todo` so far is visited. */
  lemma {:induction false} VisitedOutside(adj: Graph, todo: set<V>, v: V, st0: map<V, U64>, st: map<V, U64>)
    requires forall w :: w in adj && w !in todo ==> w in st0 && st0[w] != NOT_DONE
    requires forall w :: w in st0 && st0[w] != NOT_DONE ==> w in st && st[w] == st0[w]
    requires v in st && st[v] != NOT_DONE
    ensures forall w :: w in adj && w !in todo - {v} ==> w in st && st[w] != NOT_DONE
  {
  }

  /** The state `new` starts the search from: every vertex unvisited, without component. */
  lemma {:induction false} Initial(adj: Graph)
    requires Closed(adj)
    ensures ValidState(adj, map v | v in adj :: 0, map v | v in adj :: NOT_DONE as U64, 0, [], 1)
    ensures UnvisitedOf(map v | v in adj :: NOT_DONE as U64) == adj.Keys
  {
  }

  /** With the stack empty and every vertex visited, every vertex is done, in a numbered component. */
  lemma {:induction false} Finished(adj: Graph, comp: map<V, nat>, st: map<V, U64>, n: nat, time: nat)
    requires ValidState(adj, comp, st, n, [], time)
    requires forall v :: v in adj ==> v in st && st[v] != NOT_DONE
    ensures forall v :: v in adj ==> v in st && v in comp && Decode(st[v]).Done? && 1 <= comp[v] <= n
  {
  }

  /** The parts of a valid state that the search reads directly. */
  lemma {:induction false} ValidKeys(adj: Graph, comp: map<V, nat>, st: map<V, U64>, n: nat, stack: seq<V>, time: nat)
    requires ValidState(adj, comp, st, n, stack, time)
    ensures st.Keys == adj.Keys && comp.Keys == adj.Keys && Closed(adj) && 0 < time
    ensures forall i :: 0 <= i < |stack| ==> stack[i] in st && st[stack[i]] != NOT_DONE
  {
  }

  lemma {:induction false} GrowsKeeps(st0: map<V, U64>, comp0: map<V, nat>, s0: seq<V>, t0: nat,
                                      st: map<V, U64>, comp: map<V, nat>, stack: seq<V>, time: nat, w: V)
    requires Grows(st0, comp0, s0, t0, st, comp, stack, time) && w in st0 && st0[w] != NOT_DONE
    ensures w in st && st[w] == st0[w]
  {
  }

  lemma {:induction false} GrowsKeepsAll(st0: map<V, U64>, comp0: map<V, nat>, s0: seq<V>, t0: nat,
                                         st: map<V, U64>, comp: map<V, nat>, stack: seq<V>, time: nat)
    requires Grows(st0, comp0, s0, t0, st, comp, stack, time)
    ensures forall w :: w in st0 && st0[w] != NOT_DONE ==> w in st && st[w] == st0[w]
  {
  }

  lemma {:induction false} GrowsPrefix(st0: map<V, U64>, comp0: map<V, nat>, s0: seq<V>, t0: nat,
                                       st: map<V, U64>, comp: map<V, nat>, stack: seq<V>, time: nat)
    requires Grows(st0, comp0, s0, t0, st, comp, stack, time)
    ensures |s0| <= |stack| && stack[..|s0|] == s0 && t0 <= time
    ensures time + |UnvisitedOf(st)| == t0 + |UnvisitedOf(st0)|
  {
  }

  lemma {:induction false} PopRelDone(st0: map<V, U64>, comp0: map<V, nat>, s0: seq<V>,
                                      st: map<V, U64>, comp: map<V, nat>, stack: seq<V>, n: nat, i: nat)
    requires PopRel(st0, comp0, s0, st, comp, stack, n) && |stack| <= i < |s0|
    ensures s0[i] in st && st[s0[i]] != NOT_DONE
  {
    assert Decode(st[s0[i]]).Done?;
  }

  /** A vertex at the bottom of the stack keeps its place and its time while the search grows. */
  lemma {:induction false} GrowsFloor(st0: map<V, U64>, comp0: map<V, nat>, s0: seq<V>, t0: nat,
                                      st: map<V, U64>, comp: map<V, nat>, stack: seq<V>, time: nat)
    requires Grows(st0, comp0, s0, t0, st, comp, stack, time) && s0 != []
    requires forall i :: 0 <= i < |s0| ==> s0[i] in st0 && st0[s0[i]] != NOT_DONE
    ensures Floor(st, stack, time) == Floor(st0, s0, t0)
  {
    assert stack[0] == s0[0];
  }

  lemma {:induction false} Popped(adj: Graph, comp: map<V, nat>, st: map<V, U64>, n: nat, stack: seq<V>, time: nat)
    requires ValidState(adj, comp, st, n, stack, time) && stack != [] && n >= 1
    ensures var u := stack[|stack| - 1];
      && u in st && Decode(st[u]).OnStack?
      && ValidState(adj, comp[u := n], st[u := SetDone(st[u])], n, stack[..|stack| - 1], time)
      && UnvisitedOf(st[u := SetDone(st[u])]) == UnvisitedOf(st)
  {
    hide StackOk, TimesOk, ComponentsOk;
    var u := stack[|stack| - 1];
    PoppedStack(st, stack);
    HelpersDecode(st[u]);
    PoppedTimes(st, time, u);
    PoppedComponents(st, comp, n, u);
    assert UnvisitedOf(st[u := SetDone(st[u])]) == UnvisitedOf(st);
  }

  lemma {:induction false} PoppedStack(st: map<V, U64>, stack: seq<V>)
    requires StackOk(st, stack) && stack != []
    ensures var u := stack[|stack| - 1];
      && u in st && Decode(st[u]).OnStack?
      && StackOk(st[u := SetDone(st[u])], stack[..|stack| - 1])
  {
    var u := stack[|stack| - 1];
    var st' := st[u := SetDone(st[u])];
    var stack' := stack[..|stack| - 1];
    HelpersDecode(st[u]);
    assert u !in stack' by {
      forall i | 0 <= i < |stack'| ensures stack'[i] != u {
        assert DiscAt(st, stack[i]) < DiscAt(st, stack[|stack| - 1]);
      }
    }
    forall i | 0 <= i < |stack'| ensures DiscAt(st', stack'[i]) == DiscAt(st, stack[i]) {
    }
    forall v | v in st' && Decode(st'[v]).OnStack? ensures v in stack' {
      assert v in stack;
    }
  }

  lemma {:induction false} PoppedTimes(st: map<V, U64>, time: nat, u: V)
    requires TimesOk(st, time) && u in st && Decode(st[u]).OnStack?
    ensures TimesOk(st[u := SetDone(st[u])], time)
  {
    HelpersDecode(st[u]);
  }

  lemma {:induction false} PoppedComponents(st: map<V, U64>, comp: map<V, nat>, n: nat, u: V)
    requires ComponentsOk(st, comp, n) && u in st && Decode(st[u]).OnStack? && n >= 1
    ensures ComponentsOk(st[u := SetDone(st[u])], comp[u := n], n)
  {
    HelpersDecode(st[u]);
  }

  lemma {:induction false} FloorBelow(adj: Graph, comp: map<V, nat>, st: map<V, U64>, n: nat, stack: seq<V>, time: nat, u: V)
    requires ValidState(adj, comp, st, n, stack, time) && u in st && Decode(st[u]).OnStack?
    ensures Floor(st, stack, time) <= DiscAt(st, u)
  {
    var i :| 0 <= i < |stack| && stack[i] == u;
    if i > 0 {
      assert DiscAt(st, stack[0]) < DiscAt(st, stack[i]);
    }
  }

  /**
   * How popping changes the state: the stack is a prefix of the old one, the popped vertices keep
   * their discovery time but are done, in component `n`, and every other vertex is unchanged.
   */
  ghost predicate PopRel(st0: map<V, U64>, comp0: map<V, nat>, s0: seq<V>,
                         st: map<V, U64>, comp: map<V, nat>, stack: seq<V>, n: nat)
  {
    && |stack| <= |s0| && stack == s0[..|stack|]
    && st.Keys == st0.Keys && comp.Keys == comp0.Keys
    && UnvisitedOf(st) == UnvisitedOf(st0)
    && (forall i :: |stack| <= i < |s0| ==>
          s0[i] in st0 && s0[i] in st && s0[i] in comp && st0[s0[i]] != NOT_DONE
          && DiscAt(st, s0[i]) == DiscAt(st0, s0[i]) && Decode(st[s0[i]]).Done? && comp[s0[i]] == n)
    && (forall w :: w in st0 && w !in s0[|stack|..] ==>
          w in st && w in comp && w in comp0 && st[w] == st0[w] && comp[w] == comp0[w])
  }

  predicate Distinct(s: seq<V>)
  {
    forall i, j :: 0 <= i < j < |s| ==> s[i] != s[j]
  }

  /** The stack has no repeated vertex, as discovery times strictly increase along it. */
  lemma {:induction false} StackDistinct(st: map<V, U64>, stack: seq<V>)
    requires StackOk(st, stack)
    ensures Distinct(stack)
  {
    forall i, j | 0 <= i < j < |stack| ensures stack[i] != stack[j] {
      assert DiscAt(st, stack[i]) < DiscAt(st, stack[j]);
    }
  }

  lemma {:induction false} PopRelStep(st0: map<V, U64>, comp0: map<V, nat>, s0: seq<V>,
                                      st: map<V, U64>, comp: map<V, nat>, stack: seq<V>, n: nat)
    requires PopRel(st0, comp0, s0, st, comp, stack, n) && Distinct(s0) && stack != []
    requires stack[|stack| - 1] in st && Decode(st[stack[|stack| - 1]]).OnStack?
    ensures var u := stack[|stack| - 1];
      PopRel(st0, comp0, s0, st[u := SetDone(st[u])], comp[u := n], stack[..|stack| - 1], n)
  {
    hide PopRel;
    var m := |stack| - 1;
    var u := stack[m];
    var st', comp', rest := st[u := SetDone(st[u])], comp[u := n], stack[..m];
    PopRelShape(st0, comp0, s0, st, comp, stack, n);
    PopRelPopped(st0, comp0, s0, st, comp, stack, n, st', comp', rest);
    PopRelOthers(st0, comp0, s0, st, comp, stack, n, st', comp', rest);
    UnvisitedKept(st, u, SetDone(st[u]));
    assert rest == s0[..m];
    PopRelIntro(st0, comp0, s0, st', comp', rest, n);
  }

  lemma {:induction false} PopRelShape(st0: map<V, U64>, comp0: map<V, nat>, s0: seq<V>,
                                       st: map<V, U64>, comp: map<V, nat>, stack: seq<V>, n: nat)
    requires PopRel(st0, comp0, s0, st, comp, stack, n)
    ensures |stack| <= |s0| && stack == s0[..|stack|]
    ensures st.Keys == st0.Keys && comp.Keys == comp0.Keys && UnvisitedOf(st) == UnvisitedOf(st0)
  {
  }

  lemma {:induction false} PopRelIntro(st0: map<V, U64>, comp0: map<V, nat>, s0: seq<V>,
                                       st: map<V, U64>, comp: map<V, nat>, stack: seq<V>, n: nat)
    requires |stack| <= |s0| && stack == s0[..|stack|]
    requires st.Keys == st0.Keys && comp.Keys == comp0.Keys && UnvisitedOf(st) == UnvisitedOf(st0)
    requires forall i :: |stack| <= i < |s0| ==>
        s0[i] in st0 && s0[i] in st && s0[i] in comp && st0[s0[i]] != NOT_DONE
        && DiscAt(st, s0[i]) == DiscAt(st0, s0[i]) && Decode(st[s0[i]]).Done? && comp[s0[i]] == n
    requires forall w :: w in st0 && w !in s0[|stack|..] ==>
        w in st && w in comp && w in comp0 && st[w] == st0[w] && comp[w] == comp0[w]
    ensures PopRel(st0, comp0, s0, st, comp, stack, n)
  {
  }

  lemma {:induction false} UnvisitedKept(st: map<V, U64>, u: V, x: U64)
    requires u in st && st[u] != NOT_DONE && x != NOT_DONE
    ensures UnvisitedOf(st[u := x]) == UnvisitedOf(st)
  {
  }

  lemma {:induction false} PopRelPopped(st0: map<V, U64>, comp0: map<V, nat>, s0: seq<V>,
                                        st: map<V, U64>, comp: map<V, nat>, stack: seq<V>, n: nat,
                                        st': map<V, U64>, comp': map<V, nat>, rest: seq<V>)
    requires PopRel(st0, comp0, s0, st, comp, stack, n) && Distinct(s0) && stack != []
    requires stack[|stack| - 1] in st && Decode(st[stack[|stack| - 1]]).OnStack?
    requires var u := stack[|stack| - 1];
      st' == st[u := SetDone(st[u])] && comp' == comp[u := n] && rest == stack[..|stack| - 1]
    ensures stack[|stack| - 1] in comp
    ensures forall i :: |rest| <= i < |s0| ==>
        s0[i] in st0 && s0[i] in st' && s0[i] in comp' && st0[s0[i]] != NOT_DONE
        && DiscAt(st', s0[i]) == DiscAt(st0, s0[i]) && Decode(st'[s0[i]]).Done? && comp'[s0[i]] == n
  {
    hide PopRel;
    var m := |stack| - 1;
    var u := stack[m];
    PopRelShape(st0, comp0, s0, st, comp, stack, n);
    assert u == s0[m];
    forall i | |stack| <= i < |s0| ensures s0[i] != u {
      assert s0[m] != s0[i];
    }
    assert u !in s0[|stack|..];
    PopRelKept(st0, comp0, s0, st, comp, stack, n, u);
    HelpersDecode(st[u]);
    forall i | m <= i < |s0|
      ensures s0[i] in st0 && s0[i] in st' && s0[i] in comp' && st0[s0[i]] != NOT_DONE
        && DiscAt(st', s0[i]) == DiscAt(st0, s0[i]) && Decode(st'[s0[i]]).Done? && comp'[s0[i]] == n
    {
      if i != m {
        PopRelAt(st0, comp0, s0, st, comp, stack, n, i);
      }
    }
  }

  lemma {:induction false} PopRelAt(st0: map<V, U64>, comp0: map<V, nat>, s0: seq<V>,
                                    st: map<V, U64>, comp: map<V, nat>, stack: seq<V>, n: nat, i: nat)
    requires PopRel(st0, comp0, s0, st, comp, stack, n) && |stack| <= i < |s0|
    ensures s0[i] in st0 && s0[i] in st && s0[i] in comp && st0[s0[i]] != NOT_DONE
    ensures DiscAt(st, s0[i]) == DiscAt(st0, s0[i]) && Decode(st[s0[i]]).Done? && comp[s0[i]] == n
  {
  }

  lemma {:induction false} PopRelKept(st0: map<V, U64>, comp0: map<V, nat>, s0: seq<V>,
                                      st: map<V, U64>, comp: map<V, nat>, stack: seq<V>, n: nat, w: V)
    requires PopRel(st0, comp0, s0, st, comp, stack, n) && w in st0 && w !in s0[|stack|..]
    ensures w in st && w in comp && w in comp0 && st[w] == st0[w] && comp[w] == comp0[w]
  {
  }

  lemma {:induction false} PopRelOthers(st0: map<V, U64>, comp0: map<V, nat>, s0: seq<V>,
                                        st: map<V, U64>, comp: map<V, nat>, stack: seq<V>, n: nat,
                                        st': map<V, U64>, comp': map<V, nat>, rest: seq<V>)
    requires PopRel(st0, comp0, s0, st, comp, stack, n) && stack != [] && stack[|stack| - 1] in st
    requires var u := stack[|stack| - 1];
      st' == st[u := SetDone(st[u])] && comp' == comp[u := n] && rest == stack[..|stack| - 1]
    ensures forall w :: w in st0 && w !in s0[|rest|..] ==>
        w in st' && w in comp' && w in comp0 && st'[w] == st0[w] && comp'[w] == comp0[w]
  {
    var m := |stack| - 1;
    assert stack[m] == s0[m];
  }

  lemma {:induction false} PopRelStart(st: map<V, U64>, comp: map<V, nat>, stack: seq<V>, n: nat)
    requires st.Keys == comp.Keys
    ensures PopRel(st, comp, stack, st, comp, stack, n)
  {
    assert stack[..|stack|] == stack && stack[|stack|..] == [];
  }

  /** Popping the vertices placed above the old stack keeps the search a growth of its start. */
  lemma {:induction false} PopGrows(st0: map<V, U64>, comp0: map<V, nat>, s0: seq<V>, t0: nat,
                                    st1: map<V, U64>, comp1: map<V, nat>, s1: seq<V>, t1: nat,
                                    st2: map<V, U64>, comp2: map<V, nat>, n: nat)
    requires Grows(st0, comp0, s0, t0, st1, comp1, s1, t1) && st1.Keys == st0.Keys
    requires PopRel(st1, comp1, s1, st2, comp2, s0, n)
    ensures Grows(st0, comp0, s0, t0, st2, comp2, s0, t1)
  {
    forall w | w in st0 && st0[w] == NOT_DONE && w in st2 && st2[w] != NOT_DONE ensures t0 <= DiscAt(st2, w) < t1 {
      if w in s1[|s0|..] {
        var i :| 0 <= i < |s1[|s0|..]| && s1[|s0|..][i] == w;
        assert s1[|s0| + i] == w;
      }
    }
    assert s0[..|s0|] == s0;
  }

  /** Opening a new component number keeps the state valid. */
  lemma {:induction false} Raised(adj: Graph, comp: map<V, nat>, st: map<V, U64>, n: nat, stack: seq<V>, time: nat)
    requires ValidState(adj, comp, st, n, stack, time)
    ensures ValidState(adj, comp, st, n + 1, stack, time)
    ensures Distinct(stack) && st.Keys == comp.Keys
  {
    StackDistinct(st, stack);
  }

  function Min(a: nat, b: nat): (m: nat)
    ensures m <= a && m <= b && (m == a || m == b)
  {
    if a < b then a else b
  }

  /** The smallest element of a non-empty set of vertices. */
  ghost function Least(s: set<V>): (m: V)
    requires s != {}
    ensures m in s && forall x :: x in s ==> m <= x
    decreases s
  {
    var x :| x in s;
    if s == {x} then
      x
    else
      var m := Least(s - {x});
      assert forall y :: y in s ==> y == x || y in s - {x};
      if x < m then x else m
  }
}

/** The search itself, over the state described in `TarjanState`. */
module Tarjan {
  import opened TarjanState
  import opened TarjanReach

  class StronglyConnectedComponents {
    /** The number of the component of each vertex, from 1; 0 until the vertex is done. */
    var component: map<V, nat>
    var state: map<V, U64>
    var numComponents: nat
    var stack: seq<V>
    var currentTime: nat

    ghost predicate Valid(adj: Graph)
      reads this
    {
      ValidState(adj, component, state, numComponents, stack, currentTime)
    }

    /**
     * `new`: every vertex of the graph ends up done, in a component numbered from 1. Two vertices
     * share a component exactly when each reaches the other, and an edge never leads to a
     * component with a larger number: the components come in reverse topological order.
     */
    constructor (adj: Graph)
      requires Closed(adj) && |adj| < NOT_DONE
      ensures Valid(adj) && stack == []
      ensures forall v :: v in adj ==> v in state && v in component && Decode(state[v]).Done? && 1 <= component[v] <= numComponents
      ensures forall u, w :: u in adj && w in adj ==> (component[u] == component[w] <==> Reach(adj, u, w) && Reach(adj, w, u))
      ensures forall u, w :: u in adj && w in adj && Reach(adj, u, w) ==> component[w] <= component[u]
    {
      hide ValidState, Grows, UnvisitedOf, SccOk, Reach;
      Initial(adj);
      SccStart(adj);
      component := map v | v in adj :: 0;
      state := map v | v in adj :: NOT_DONE as U64;
      numComponents := 0;
      stack := [];
      currentTime := 1;
      new;
      var todo := adj.Keys;
      while todo != {}
        invariant todo <= adj.Keys
        invariant Valid(adj) && stack == []
        invariant SccOk(adj, state, component, stack)
        invariant currentTime + |UnvisitedOf(state)| == 1 + |adj|
        invariant forall v :: v in adj && v !in todo ==> v in state && state[v] != NOT_DONE
        decreases |todo|
      {
        ghost var least := Least(todo);
        var v :| v in todo && forall x :: x in todo ==> v <= x;
        ghost var todo0, st0 := todo, state;
        todo := todo - {v};
        ValidKeys(adj, component, state, numComponents, stack, currentTime);
        if IsUnvisited(state[v]) {
          ghost var comp0, s0, t0 := component, stack, currentTime;
          EmptyStackReaches(adj, v);
          var _ := Dfs(v, adj);
          GrowsKeepsAll(st0, comp0, s0, t0, state, component, stack, currentTime);
          GrowsPrefix(st0, comp0, s0, t0, state, component, stack, currentTime);
          ValidKeys(adj, component, state, numComponents, stack, currentTime);
        }
        VisitedOutside(adj, todo0, v, st0, state);
      }
      Finished(adj, component, state, numComponents, currentTime);
      SccFinished(adj, state, component);
    }

    /** The start of `dfs`: `v` gets the current time as discovery time and goes on the stack. */
    method Visit(v: V, ghost adj: Graph)
      requires Valid(adj) && v in state && state[v] == NOT_DONE
      requires currentTime + |UnvisitedOf(state)| <= NOT_DONE
      requires SccOk(adj, state, component, stack) && RegionReach(adj, stack, 0, v)
      modifies this`state, this`currentTime, this`stack
      ensures Valid(adj)
      ensures SccOk(adj, state, component, stack) && RegionReach(adj, stack, 0, v)
      ensures Grows(old(state), component, old(stack), old(currentTime), state, component, stack, currentTime)
      ensures v in state && state == old(state)[v := state[v]] && Decode(state[v]) == OnStack(old(currentTime))
      ensures currentTime == old(currentTime) + 1 && stack == old(stack) + [v]
      ensures |UnvisitedOf(state)| < |UnvisitedOf(old(state))|
      ensures currentTime + |UnvisitedOf(state)| == old(currentTime + |UnvisitedOf(state)|)
      ensures Floor(state, stack, currentTime) == old(Floor(state, stack, currentTime)) <= old(currentTime)
      ensures old(currentTime) > 0
    {
      hide ValidState, Grows, SccOk, RegionReach;
      ValidKeys(adj, component, state, numComponents, stack, currentTime);
      assert v in UnvisitedOf(state);
      // `self.state[v] ^= min_disc`, where `min_disc` is the current time
      var marked := Xor64(state[v], currentTime);
      MarkVisited(currentTime);
      VisitedScc(adj, state, component, stack, v, marked);
      VisitedValid(adj, component, state, numComponents, stack, currentTime, v, marked);
      VisitedGrows(state, component, stack, currentTime, v, marked);
      state := state[v := marked];
      currentTime := currentTime + 1;
      stack := stack + [v];
    }

    /**
     * `dfs`: explores `v` and everything reachable from it that is still unvisited, and returns the
     * smallest discovery time it found on the stack. When that is the time of `v` itself, `v` heads
     * a new component: the stack is popped down to and including `v`.
     */
    method Dfs(v: V, adj: Graph) returns (minDisc: nat)
      requires Valid(adj) && v in adj && v in state && state[v] == NOT_DONE
      requires currentTime + |UnvisitedOf(state)| <= NOT_DONE
      requires SccOk(adj, state, component, stack) && RegionReach(adj, stack, 0, v)
      modifies this
      decreases |UnvisitedOf(state)|, 0
      ensures Valid(adj) && SccOk(adj, state, component, stack)
      ensures RegionReach(adj, stack, |old(stack)|, v) && RegionSettled(adj, state, stack, |old(stack)|, minDisc)
      ensures minDisc < old(currentTime) ==> WitnessIn(adj, state, old(stack), v, minDisc)
      ensures Grows(old(state), old(component), old(stack), old(currentTime), state, component, stack, currentTime)
      ensures currentTime > old(currentTime) && state[v] != NOT_DONE
      ensures old(Floor(state, stack, currentTime)) <= minDisc <= old(currentTime)
      ensures minDisc == old(currentTime) ==> stack == old(stack)
      ensures minDisc < old(currentTime) ==> |stack| > |old(stack)| && stack[|old(stack)|] == v
    {
      hide ValidState, Grows, PopRel, SccOk, RegionReach, RegionSettled, WitnessIn;
      ValidKeys(adj, component, state, numComponents, stack, currentTime);
      ghost var st0, comp0, s0 := state, component, stack;
      var t0, k := currentTime, |stack|;
      Visit(v, adj);
      ghost var st1, comp1, s1 := state, component, stack;
      minDisc := Explore(v, adj, t0);
      GrowsKeeps(st1, comp1, s1, t0 + 1, state, component, stack, currentTime, v);
      GrowsPrefix(st1, comp1, s1, t0 + 1, state, component, stack, currentTime);
      GrowsTrans(st0, comp0, s0, t0, st1, comp1, s1, t0 + 1, state, component, stack, currentTime);
      GrowsPrefix(st0, comp0, s0, t0, state, component, stack, currentTime);
      assert stack[k] == s1[k] == v;
      HelpersDecode(state[v]);
      RegionFrom(adj, state, stack, k, v, minDisc);
      if minDisc == GetDiscoverTime(state[v]) {
        ghost var st2, comp2, s2, t2 := state, component, stack, currentTime;
        ValidKeys(adj, component, state, numComponents, stack, currentTime);
        PopComponent(v, k, adj);
        PopRelDone(st2, comp2, s2, state, component, stack, numComponents, k);
        PopGrows(st0, comp0, s0, t0, st2, comp2, s2, t2, state, component, numComponents);
        EmptyRegion(adj, state, stack, v, minDisc);
      } else {
        ValidStack(adj, component, state, numComponents, stack, currentTime);
        WitnessBelow(st0, comp0, s0, t0, state, component, stack, currentTime, adj, v, minDisc);
      }
    }

    /** The `for` loop of `dfs` over the neighbours of `v`, on a stack that holds at least `v`. */
    method Explore(v: V, adj: Graph, minDisc0: nat) returns (minDisc: nat)
      requires Valid(adj) && v in adj && stack != []
      requires currentTime + |UnvisitedOf(state)| <= NOT_DONE
      requires Floor(state, stack, currentTime) <= minDisc0 < currentTime
      requires SccOk(adj, state, component, stack) && RegionReach(adj, stack, 0, v)
      modifies this
      decreases |UnvisitedOf(state)|, 1
      ensures Valid(adj) && SccOk(adj, state, component, stack)
      ensures Grows(old(state), old(component), old(stack), old(currentTime), state, component, stack, currentTime)
      ensures old(Floor(state, stack, currentTime)) <= minDisc <= minDisc0
      ensures RegionReach(adj, stack, 0, v) && RegionSettled(adj, state, stack, |old(stack)|, minDisc)
      ensures NbrsSettled(adj, state, v, minDisc)
      ensures minDisc == minDisc0 || WitnessIn(adj, state, stack, v, minDisc)
    {
      hide ValidState, Grows, SccOk, ExploreInv, RegionReach, RegionSettled, WitnessIn;
      ghost var st0, comp0, s0, time0, n0 := state, component, stack, currentTime, numComponents;
      ghost var floor := Floor(state, stack, currentTime);
      ValidKeys(adj, component, state, numComponents, stack, currentTime);
      GrowsRefl(state, component, stack, currentTime);
      minDisc := minDisc0;
      var todo := adj[v];
      ExploreStart(adj, state, stack, v, minDisc0);
      while todo != {}
        invariant todo <= adj[v]
        invariant Valid(adj) && SccOk(adj, state, component, stack)
        invariant Grows(st0, comp0, s0, time0, state, component, stack, currentTime)
        invariant floor <= minDisc <= minDisc0
        invariant ExploreInv(adj, state, stack, v, todo, minDisc, minDisc0, |s0|)
        decreases |todo|
      {
        var u :| u in todo;
        ghost var todo0 := todo;
        todo := todo - {u};
        ValidKeys(adj, component, state, numComponents, stack, currentTime);
        GrowsFloor(st0, comp0, s0, time0, state, component, stack, currentTime);
        GrowsPrefix(st0, comp0, s0, time0, state, component, stack, currentTime);
        if IsUnvisited(state[u]) {
          ghost var st1, comp1, s1, t1 := state, component, stack, currentTime;
          ValidStack(adj, component, state, numComponents, stack, currentTime);
          ExploreReaches(adj, state, stack, v, todo0, minDisc, minDisc0, |s0|, u);
          var found := Dfs(u, adj);
          ValidKeys(adj, component, state, numComponents, stack, currentTime);
          GrowsTrans(st0, comp0, s0, time0, st1, comp1, s1, t1, state, component, stack, currentTime);
          ExploreSearched(adj, st1, comp1, s1, t1, state, component, stack, currentTime, v, todo0, minDisc, minDisc0, |s0|, u, found);
          minDisc := Min(found, minDisc);
        } else if IsInStack(state[u]) {
          HelpersDecode(state[u]);
          FloorBelow(adj, component, state, numComponents, stack, currentTime, u);
          ValidStack(adj, component, state, numComponents, stack, currentTime);
          ExploreOnStack(adj, state, stack, v, todo0, minDisc, minDisc0, |s0|, u);
          minDisc := Min(GetDiscoverTime(state[u]), minDisc);
        } else {
          HelpersDecode(state[u]);
          ExploreDone(adj, state, stack, v, todo0, minDisc, minDisc0, |s0|, u);
        }
      }
      ExploreEnd(adj, state, stack, v, minDisc, minDisc0, |s0|);
    }

    /**
     * The end of `dfs` for a root `v`, at position `k` of the stack: a new component number, and
     * the stack popped down to and including `v` into that component.
     */
    method PopComponent(v: V, k: nat, ghost adj: Graph)
      requires Valid(adj) && k < |stack| && stack[k] == v
      requires SccOk(adj, state, component, stack)
      requires RegionReach(adj, stack, k, v) && RegionSettled(adj, state, stack, k, DiscAt(state, v))
      modifies this`stack, this`state, this`component, this`numComponents
      ensures numComponents == old(numComponents) + 1
      ensures Valid(adj) && SccOk(adj, state, component, stack)
      ensures stack == old(stack)[..k]
      ensures PopRel(old(state), old(component), old(stack), state, component, stack, numComponents)
    {
      // the invariants are carried by the lemmas of TarjanState and TarjanReach alone
      hide ValidState, PopRel, UnvisitedOf, SccOk, RegionReach, RegionSettled;
      Raised(adj, component, state, numComponents, stack, currentTime);
      PopRelStart(state, component, stack, numComponents + 1);
      numComponents := numComponents + 1;
      ghost var st0, comp0, s0 := state, component, stack;
      var done := false;
      while !done
        invariant k <= |stack| <= |s0| && stack == s0[..|stack|]
        invariant (!done ==> |stack| > k) && (done ==> |stack| == k)
        invariant numComponents == old(numComponents) + 1
        invariant Valid(adj)
        invariant PopRel(st0, comp0, s0, state, component, stack, numComponents)
        decreases |stack|
      {
        var u := stack[|stack| - 1];
        Popped(adj, component, state, numComponents, stack, currentTime);
        PopRelStep(st0, comp0, s0, state, component, stack, numComponents);
        stack := stack[..|stack| - 1];
        component := component[u := numComponents];
        state := state[u := SetDone(state[u])];
        done := u == v;
      }
      PoppedScc(adj, old(state), old(component), old(stack), currentTime, state, component, k, numComponents);
    }
  }

  predicate Increasing(s: seq<V>)
  {
    forall a, b :: 0 <= a < b < |s| ==> s[a] < s[b]
  }

  /**
   * `components` lists, at index `i`, the vertices of `done` whose component is `n - i`, by
   * increasing vertex.
   */
  ghost predicate Grouped(components: seq<seq<V>>, comp: map<V, nat>, n: nat, done: set<V>)
  {
    && |components| == n
    && (forall i, v :: 0 <= i < n ==> (v in components[i] <==> v in done && v in comp && comp[v] == n - i))
    && (forall i :: 0 <= i < n ==> Increasing(components[i]))
  }

  lemma {:induction false} GroupedStart(comp: map<V, nat>, n: nat)
    ensures Grouped(seq(n, _ => []), comp, n, {})
  {
  }

  /** Appending a vertex larger than all grouped ones to the group of its component. */
  lemma {:induction false} GroupedStep(components: seq<seq<V>>, comp: map<V, nat>, n: nat, done: set<V>, v: V)
    requires Grouped(components, comp, n, done) && v in comp && 1 <= comp[v] <= n
    requires forall x :: x in done ==> x < v
    ensures var i := n - comp[v];
      Grouped(components[i := components[i] + [v]], comp, n, done + {v})
  {
    var i := n - comp[v];
    var next := components[i := components[i] + [v]];
    forall j, w | 0 <= j < n ensures w in next[j] <==> w in done + {v} && w in comp && comp[w] == n - j {
      if j == i {
        assert w in next[j] <==> w in components[i] || w == v;
      }
    }
    forall j | 0 <= j < n ensures Increasing(next[j]) {
      if j == i {
        assert next[j] == components[i] + [v];
        forall a, b | 0 <= a < b < |next[j]| ensures next[j][a] < next[j][b] {
          assert next[j][a] == components[i][a] && components[i][a] in components[i];
          if b == |components[i]| {
            assert components[i][a] in done;
          } else {
            assert Increasing(components[i]);
          }
        }
      }
    }
  }

  /** Every vertex of `done` is smaller than every vertex of `todo`. */
  ghost predicate AllBelow(done: set<V>, todo: set<V>)
  {
    forall x, y :: x in done && y in todo ==> x < y
  }

  lemma {:induction false} NoneBelow(todo: set<V>)
    ensures AllBelow({}, todo)
  {
  }

  /** Moving the least vertex of `todo` to `done` keeps `done` below `todo`. */
  lemma {:induction false} Below(done: set<V>, todo: set<V>, v: V)
    requires AllBelow(done, todo)
    requires v in todo && forall x :: x in todo ==> v <= x
    ensures AllBelow(done + {v}, todo - {v})
    ensures forall x :: x in done ==> x < v
  {
  }

  /** One iteration of the loop of `ordered_scc`: the least vertex left goes to the group of its component. */
  method GroupLeast(components: seq<seq<V>>, comp: map<V, nat>, n: nat, ghost done: set<V>, todo: set<V>)
    returns (components': seq<seq<V>>, todo': set<V>, ghost done': set<V>)
    requires forall v :: v in comp ==> 1 <= comp[v] <= n
    requires todo != {} && todo <= comp.Keys && done == comp.Keys - todo
    requires |components| == n && AllBelow(done, todo) && Grouped(components, comp, n, done)
    ensures |components'| == n && todo' <= comp.Keys && done' == comp.Keys - todo' && |todo'| < |todo|
    ensures AllBelow(done', todo') && Grouped(components', comp, n, done')
  {
    hide Grouped, AllBelow;
    ghost var least := Least(todo);
    var v :| v in todo && forall x :: x in todo ==> v <= x;
    Below(done, todo, v);
    GroupedStep(components, comp, n, done, v);
    components' := components[n - comp[v] := components[n - comp[v]] + [v]];
    todo' := todo - {v};
    done' := done + {v};
  }

  /** The `for` loop of `ordered_scc`: the vertices, by increasing vertex, into their groups. */
  method Group(comp: map<V, nat>, n: nat) returns (components: seq<seq<V>>)
    requires forall v :: v in comp ==> 1 <= comp[v] <= n
    ensures Grouped(components, comp, n, comp.Keys)
  {
    hide Grouped, AllBelow;
    components := seq(n, _ => []);
    GroupedStart(comp, n);
    var todo := comp.Keys;
    NoneBelow(todo);
    ghost var done: set<V> := {};
    while todo != {}
      invariant todo <= comp.Keys && done == comp.Keys - todo
      invariant |components| == n && AllBelow(done, todo) && Grouped(components, comp, n, done)
      decreases |todo|
    {
      components, todo, done := GroupLeast(components, comp, n, done, todo);
    }
    assert done == comp.Keys;
  }

  /** Every vertex of `vertices` lies in exactly one of the groups, each group listed by increasing vertex. */
  predicate Partitions(groups: seq<seq<V>>, vertices: set<V>)
  {
    && (forall i, v :: 0 <= i < |groups| && v in groups[i] ==> v in vertices)
    && (forall v :: v in vertices ==> exists i :: 0 <= i < |groups| && v in groups[i])
    && (forall i, j, v :: 0 <= i < j < |groups| && v in groups[i] ==> v !in groups[j])
    && (forall i :: 0 <= i < |groups| ==> Increasing(groups[i]))
  }

  /** Grouping every vertex of a component map whose numbers are in range partitions its vertices. */
  lemma {:induction false} GroupedPartitions(components: seq<seq<V>>, comp: map<V, nat>, vertices: set<V>)
    requires comp.Keys == vertices && forall v :: v in vertices ==> 1 <= comp[v] <= |components|
    requires Grouped(components, comp, |components|, vertices)
    ensures Partitions(components, vertices)
  {
    var n := |components|;
    forall v | v in vertices
      ensures exists i :: 0 <= i < n && v in components[i]
    {
      assert v in components[n - comp[v]];
    }
    forall i, j, v | 0 <= i < j < n && v in components[i]
      ensures v !in components[j]
    {
      assert comp[v] == n - i;
    }
  }

  /**
   * `ordered_scc`: the vertices grouped by component, the group of component `c` at index
   * `num_components - c`. The groups are the strongly connected components, and they come in
   * topological order: a vertex reaches only vertices of its own group or of later ones.
   */
  method OrderedScc(graph: Graph) returns (components: seq<seq<V>>, ghost comp: map<V, nat>)
    requires Closed(graph) && |graph| < NOT_DONE
    ensures comp.Keys == graph.Keys
    ensures forall v :: v in graph ==> 1 <= comp[v] <= |components|
    ensures Grouped(components, comp, |components|, graph.Keys)
    ensures Partitions(components, graph.Keys)
    ensures forall u, w :: u in graph && w in graph ==> (comp[u] == comp[w] <==> Reach(graph, u, w) && Reach(graph, w, u))
    ensures forall i, j, u, w :: 0 <= i < |components| && 0 <= j < |components| && u in components[i] && w in components[j] && Reach(graph, u, w) ==> i <= j
  {
    hide ValidState, Reach;
    var scc := new StronglyConnectedComponents(graph);
    ValidKeys(graph, scc.component, scc.state, scc.numComponents, scc.stack, scc.currentTime);
    comp := scc.component;
    components := Group(scc.component, scc.numComponents);
    GroupedPartitions(components, comp, graph.Keys);
    forall i, j, u, w | 0 <= i < |components| && 0 <= j < |components| && u in components[i] && w in components[j] && Reach(graph, u, w)
      ensures i <= j
    {
      assert comp[u] == |components| - i && comp[w] == |components| - j;
    }
  }
}
