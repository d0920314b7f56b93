/**
 * The type hierarchy of chronicles (src/chronicles/typesystem.rs). Types are numbered in the
 * depth-first pre-order of the parent relation, so that the subtypes of a type are exactly the ids
 * from its own id to the id of its last subtype, and the subtype test is two comparisons.
 */
module TypeSystem {
  import opened Wrappers

  type TypeId = nat

  /** A type name with its optional parent name. */
  type Entry<T> = (T, Option<T>)

  /** `types[i]` is the type with id `i`; `lastSubtype[t]` is the id of the last subtype of `t`. */
  datatype TypeHierarchy<T> = TypeHierarchy(types: seq<T>, lastSubtype: map<TypeId, TypeId>)

  /** Every id has a last subtype, at or after itself and among the ids. */
  predicate WellFormed<T>(h: TypeHierarchy<T>)
  {
    && (forall t :: 0 <= t < |h.types| ==> t in h.lastSubtype)
    && (forall t :: t in h.lastSubtype ==> t <= h.lastSubtype[t] < |h.types|)
  }

  /** `possible_subtype` lies in the id range of `tpe`'s subtypes. */
  predicate IsSubtype<T>(h: TypeHierarchy<T>, tpe: TypeId, possibleSubtype: TypeId)
    requires tpe <= possibleSubtype ==> tpe in h.lastSubtype
  {
    tpe <= possibleSubtype && possibleSubtype <= h.lastSubtype[tpe]
  }

  function LastSubtype<T>(h: TypeHierarchy<T>, tpe: TypeId): (sub: TypeId)
    requires WellFormed(h) && tpe < |h.types|
    ensures IsSubtype(h, tpe, sub)
    ensures forall s :: tpe <= s < |h.types| && IsSubtype(h, tpe, s) ==> s <= sub
  {
    h.lastSubtype[tpe]
  }

  /** The ids of all types, by increasing value. */
  function Types<T>(h: TypeHierarchy<T>): (ids: seq<TypeId>)
    ensures |ids| == |h.types|
    ensures forall i :: 0 <= i < |ids| ==> ids[i] == i
    ensures forall i, j :: 0 <= i < j < |ids| ==> ids[i] < ids[j]
  {
    seq(|h.types|, i requires 0 <= i => i)
  }

  /** `id_of`: the id of a type name. */
  function IdOf<T(==)>(types: seq<T>, name: T): (r: Option<TypeId>)
    ensures r.Some? ==> r.value < |types| && types[r.value] == name
    ensures r.None? <==> name !in types
    ensures r.Some? ==> forall i :: 0 <= i < r.value ==> types[i] != name
  {
    if |types| == 0 then None
    else if types[|types| - 1] == name && name !in types[..|types| - 1] then Some(|types| - 1)
    else
      var r := IdOf(types[..|types| - 1], name);
      assert forall i :: 0 <= i < |types| - 1 ==> types[..|types| - 1][i] == types[i];
      assert types == types[..|types| - 1] + [types[|types| - 1]];
      r
  }

  /** The subtype test is reflexive and antisymmetric. */
  lemma {:induction false} SubtypeOrder<T>(h: TypeHierarchy<T>, a: TypeId, b: TypeId)
    requires WellFormed(h) && a < |h.types| && b < |h.types|
    ensures IsSubtype(h, a, a)
    ensures IsSubtype(h, a, b) && IsSubtype(h, b, a) ==> a == b
  {
  }

  // ---------------------------------------------------------------- the parent relation

  predicate DistinctNames<T(==)>(entries: seq<Entry<T>>)
  {
    forall i, j :: 0 <= i < j < |entries| ==> entries[i].0 != entries[j].0
  }

  /** `e` reaches a root of `input` through at most `k` parent links. */
  ghost predicate ReachIn<T>(input: seq<Entry<T>>, e: Entry<T>, k: nat)
    decreases k
  {
    e in input && (e.1.None? || (k > 0 && exists f :: f in input && e.1 == Some(f.0) && ReachIn(input, f, k - 1)))
  }

  /** A type is reachable when following its parents leads to a parentless root. */
  ghost predicate Reachable<T>(input: seq<Entry<T>>, e: Entry<T>)
  {
    exists k :: ReachIn(input, e, k)
  }

  lemma {:induction false} ReachMonotone<T>(input: seq<Entry<T>>, e: Entry<T>, k: nat, k': nat)
    requires ReachIn(input, e, k) && k <= k'
    ensures ReachIn(input, e, k')
    decreases k
  {
    if e.1.Some? {
      var f :| f in input && e.1 == Some(f.0) && ReachIn(input, f, k - 1);
      ReachMonotone(input, f, k - 1, k' - 1);
    }
  }

  /**
   * `b` descends from `a` through the parent ids `pidx`, where `pidx[j]` is the id of the parent of
   * type `j`, or -1 for a root.
   */
  predicate Anc(pidx: seq<int>, a: nat, b: nat)
    decreases b
  {
    b < |pidx| && (a == b || (0 <= pidx[b] < b && Anc(pidx, a, pidx[b])))
  }

  lemma {:induction false} AncLe(pidx: seq<int>, a: nat, b: nat)
    requires Anc(pidx, a, b)
    ensures a <= b
    decreases b
  {
    if a != b {
      AncLe(pidx, a, pidx[b]);
    }
  }

  lemma {:induction false} AncExtend(pidx: seq<int>, p: int, a: nat, b: nat)
    requires b < |pidx|
    ensures Anc(pidx + [p], a, b) <==> Anc(pidx, a, b)
    decreases b
  {
    if a != b && 0 <= pidx[b] < b {
      assert (pidx + [p])[b] == pidx[b];
      AncExtend(pidx, p, a, pidx[b]);
    }
  }

  /** Distinct roots are unrelated. */
  lemma {:induction false} RootsUnrelated(pidx: seq<int>, a: nat, b: nat)
    requires b < |pidx| && pidx[b] == -1 && a != b
    ensures !Anc(pidx, a, b)
  {
  }

  // ---------------------------------------------------------------- construction

  /** The first remaining entry whose parent is `parent`. */
  function Position<T(==)>(entries: seq<Entry<T>>, parent: Option<T>): (r: Option<nat>)
    ensures r.Some? ==> r.value < |entries| && entries[r.value].1 == parent
    ensures r.Some? ==> forall i :: 0 <= i < r.value ==> entries[i].1 != parent
    ensures r.None? <==> forall i :: 0 <= i < |entries| ==> entries[i].1 != parent
  {
    if |entries| == 0 then None
    else if entries[0].1 == parent then Some(0)
    else
      var r := Position(entries[1..], parent);
      assert forall i :: 1 <= i < |entries| ==> entries[i] == entries[1..][i - 1];
      if r.Some? then Some(r.value + 1) else None
  }

  /** Ids and entries of the placed types, and the partition of the input. */
  ghost predicate Placement<T>(input: seq<Entry<T>>, remaining: seq<Entry<T>>, out: seq<T>,
                                   placed: seq<Entry<T>>, pidx: seq<int>)
  {
    && |placed| == |out| == |pidx|
    && (forall j :: 0 <= j < |out| ==> placed[j].0 == out[j])
    && (forall e :: e in remaining ==> e in input)
    && (forall e :: e in placed ==> e in input)
    && (forall e :: e in input ==> e in remaining || e in placed)
    && DistinctNames(remaining)
    && (forall i, j :: 0 <= i < j < |out| ==> out[i] != out[j])
    && (forall e, j :: e in remaining && 0 <= j < |out| ==> e.0 != out[j])
    && (forall j :: 0 <= j < |out| ==>
          && -1 <= pidx[j] < j
          && (pidx[j] == -1 <==> placed[j].1.None?)
          && (pidx[j] >= 0 ==> placed[j].1 == Some(out[pidx[j]])))
  }

  /** The trace holds the root marker and then the names of the open types, from the outermost. */
  ghost predicate TraceShape<T>(out: seq<T>, trace: seq<Option<T>>, stack: seq<nat>, pidx: seq<int>)
    requires |pidx| == |out|
  {
    && ((trace == [] && stack == []) || (|trace| == |stack| + 1 && trace[0] == None))
    && (forall m :: 0 <= m < |stack| ==> stack[m] < |out| && trace[m + 1] == Some(out[stack[m]]))
    && (forall m1, m2 :: 0 <= m1 < m2 < |stack| ==> stack[m1] < stack[m2])
    && (|stack| > 0 ==> pidx[stack[0]] == -1)
    && (forall m :: 0 <= m < |stack| - 1 ==> pidx[stack[m + 1]] == stack[m])
  }

  /**
   * Every type placed since an open type was opened descends from it, and the ancestors of an open
   * type are the open types around it.
   */
  ghost predicate OpenDescendants(n: nat, stack: seq<nat>, pidx: seq<int>)
  {
    && (forall m, s :: 0 <= m < |stack| && stack[m] <= s < n ==> Anc(pidx, stack[m], s))
    && (forall m, x :: 0 <= m < |stack| && Anc(pidx, x, stack[m]) ==> x in stack[..m + 1])
  }

  ghost predicate OpenTypes<T>(out: seq<T>, trace: seq<Option<T>>, stack: seq<nat>, pidx: seq<int>)
    requires |pidx| == |out|
  {
    TraceShape(out, trace, stack, pidx) && OpenDescendants(|out|, stack, pidx)
  }

  /** A closed type has its last subtype recorded, and its subtypes are the ids up to it. */
  ghost predicate ClosedRanges(n: nat, last: map<TypeId, TypeId>, stack: seq<nat>, pidx: seq<int>)
  {
    && (forall c :: c in last ==> c < n && c !in stack)
    && (forall c :: 0 <= c < n && c !in stack ==>
          && c in last && c <= last[c] < n
          && (forall x :: 0 <= x < n ==> (Anc(pidx, c, x) <==> c <= x <= last[c])))
  }

  /** No remaining type is a child of a closed type. */
  ghost predicate ClosedChildless<T>(out: seq<T>, stack: seq<nat>, remaining: seq<Entry<T>>)
  {
    forall c, e :: 0 <= c < |out| && c !in stack && e in remaining ==> e.1 != Some(out[c])
  }

  ghost predicate ClosedTypes<T>(out: seq<T>, last: map<TypeId, TypeId>, stack: seq<nat>, pidx: seq<int>,
                                 remaining: seq<Entry<T>>)
  {
    ClosedRanges(|out|, last, stack, pidx) && ClosedChildless(out, stack, remaining)
  }

  ghost predicate Inv<T>(input: seq<Entry<T>>, remaining: seq<Entry<T>>, out: seq<T>, last: map<TypeId, TypeId>,
                             trace: seq<Option<T>>, stack: seq<nat>, pidx: seq<int>, placed: seq<Entry<T>>)
  {
    && Placement(input, remaining, out, placed, pidx)
    && OpenTypes(out, trace, stack, pidx)
    && ClosedTypes(out, last, stack, pidx, remaining)
    && (trace == [] ==> forall e :: e in remaining ==> e.1 != None)
  }

  function Remove<T>(s: seq<T>, i: nat): (r: seq<T>)
    requires i < |s|
    ensures |r| == |s| - 1
    ensures forall k :: 0 <= k < |r| ==> r[k] == if k < i then s[k] else s[k + 1]
  {
    s[..i] + s[i + 1..]
  }

  lemma {:induction false} RemoveMembers<T>(s: seq<T>, i: nat)
    requires i < |s|
    ensures forall x :: x in Remove(s, i) ==> x in s
    ensures forall x :: x in s && x != s[i] ==> x in Remove(s, i)
  {
    var r := Remove(s, i);
    forall x | x in s && x != s[i] ensures x in r {
      var k :| 0 <= k < |s| && s[k] == x;
      if k < i { assert r[k] == x; } else { assert r[k - 1] == x; }
    }
  }

  lemma {:induction false} RemoveDistinct<T>(s: seq<Entry<T>>, i: nat)
    requires i < |s| && DistinctNames(s)
    ensures DistinctNames(Remove(s, i))
    ensures forall e :: e in Remove(s, i) ==> e.0 != s[i].0
  {
  }

  lemma {:induction false} PushPlacement<T>(input: seq<Entry<T>>, remaining: seq<Entry<T>>, out: seq<T>,
                                                 placed: seq<Entry<T>>, pidx: seq<int>, pos: nat, p: int)
    requires Placement(input, remaining, out, placed, pidx)
    requires pos < |remaining|
    requires -1 <= p < |out|
    requires p == -1 <==> remaining[pos].1.None?
    requires p >= 0 ==> remaining[pos].1 == Some(out[p])
    ensures Placement(input, Remove(remaining, pos), out + [remaining[pos].0], placed + [remaining[pos]], pidx + [p])
  {
    RemoveDistinct(remaining, pos);
    RemoveMembers(remaining, pos);
  }

  /** The id of the innermost open type, or -1 at the root marker. */
  function Top(stack: seq<nat>): (p: int)
    ensures -1 <= p
    ensures p >= 0 <==> stack != []
  {
    if stack == [] then -1 else stack[|stack| - 1]
  }

  lemma {:induction false} PushShape<T>(out: seq<T>, trace: seq<Option<T>>, stack: seq<nat>, pidx: seq<int>, name: T)
    requires |pidx| == |out| && TraceShape(out, trace, stack, pidx) && trace != []
    ensures TraceShape(out + [name], trace + [Some(name)], stack + [|out|], pidx + [Top(stack)])
  {
  }

  lemma {:induction false} PushDescendants(n: nat, stack: seq<nat>, pidx: seq<int>, p: int)
    requires |pidx| == n && OpenDescendants(n, stack, pidx)
    requires forall m :: 0 <= m < |stack| ==> stack[m] < n
    requires p == Top(stack)
    requires forall m :: 0 <= m < |stack| ==> stack[m] <= p
    ensures OpenDescendants(n + 1, stack + [n], pidx + [p])
  {
    var pidx', stack' := pidx + [p], stack + [n];
    forall m, s | 0 <= m < |stack'| && stack'[m] <= s < n + 1 ensures Anc(pidx', stack'[m], s) {
      if s < n {
        AncExtend(pidx, p, stack'[m], s);
      } else if m < |stack| {
        AncExtend(pidx, p, stack[m], p);
      }
    }
    forall m, x | 0 <= m < |stack'| && Anc(pidx', x, stack'[m]) ensures x in stack'[..m + 1] {
      if m < |stack| {
        AncExtend(pidx, p, x, stack[m]);
        assert stack'[..m + 1] == stack[..m + 1];
      } else if x != n {
        AncExtend(pidx, p, x, p);
        assert x in stack[..|stack| - 1 + 1];
        assert stack'[..m + 1] == stack + [n];
      }
    }
  }

  lemma {:induction false} PushRanges(n: nat, last: map<TypeId, TypeId>, stack: seq<nat>, pidx: seq<int>)
    requires |pidx| == n && ClosedRanges(n, last, stack, pidx) && OpenDescendants(n, stack, pidx)
    requires forall m :: 0 <= m < |stack| ==> stack[m] < n
    ensures ClosedRanges(n + 1, last, stack + [n], pidx + [Top(stack)])
  {
    var p := Top(stack);
    var pidx', stack' := pidx + [p], stack + [n];
    forall c | 0 <= c < n + 1 && c !in stack'
      ensures forall x :: 0 <= x < n + 1 ==> (Anc(pidx', c, x) <==> c <= x <= last[c])
    {
      forall x | 0 <= x < n + 1 ensures Anc(pidx', c, x) <==> c <= x <= last[c] {
        if x < n {
          AncExtend(pidx, p, c, x);
        } else if p >= 0 {
          AncExtend(pidx, p, c, p);
          assert stack[..|stack| - 1 + 1] == stack;
        }
      }
    }
  }

  /** One step that opens the first remaining child of the innermost open type. */
  lemma {:induction false} PushStep<T>(input: seq<Entry<T>>, remaining: seq<Entry<T>>, out: seq<T>,
                                       last: map<TypeId, TypeId>, trace: seq<Option<T>>, stack: seq<nat>,
                                       pidx: seq<int>, placed: seq<Entry<T>>, pos: nat)
    requires Inv(input, remaining, out, last, trace, stack, pidx, placed)
    requires trace != [] && pos < |remaining| && remaining[pos].1 == trace[|trace| - 1]
    ensures Inv(input, Remove(remaining, pos), out + [remaining[pos].0], last, trace + [Some(remaining[pos].0)],
                stack + [|out|], pidx + [Top(stack)], placed + [remaining[pos]])
  {
    var p := Top(stack);
    if stack != [] {
      assert trace[|stack|] == Some(out[stack[|stack| - 1]]);
    }
    PushPlacement(input, remaining, out, placed, pidx, pos, p);
    PushShape(out, trace, stack, pidx, remaining[pos].0);
    PushDescendants(|out|, stack, pidx, p);
    PushRanges(|out|, last, stack, pidx);
    RemoveMembers(remaining, pos);
  }

  lemma {:induction false} PopOpen<T>(out: seq<T>, trace: seq<Option<T>>, stack: seq<nat>, pidx: seq<int>)
    requires |pidx| == |out| && OpenTypes(out, trace, stack, pidx) && trace != []
    ensures OpenTypes(out, trace[..|trace| - 1], if stack == [] then [] else stack[..|stack| - 1], pidx)
  {
    if stack != [] {
      var stack' := stack[..|stack| - 1];
      forall m, x | 0 <= m < |stack'| && Anc(pidx, x, stack'[m]) ensures x in stack'[..m + 1] {
        assert stack[..m + 1] == stack'[..m + 1];
      }
    }
  }

  lemma {:induction false} PopRanges<T>(out: seq<T>, last: map<TypeId, TypeId>, trace: seq<Option<T>>,
                                        stack: seq<nat>, pidx: seq<int>)
    requires |pidx| == |out| && OpenTypes(out, trace, stack, pidx) && stack != []
    requires ClosedRanges(|out|, last, stack, pidx)
    ensures ClosedRanges(|out|, last[stack[|stack| - 1] := |out| - 1], stack[..|stack| - 1], pidx)
  {
    var top := stack[|stack| - 1];
    var stack' := stack[..|stack| - 1];
    assert top !in stack' by {
      forall m | 0 <= m < |stack'| ensures stack'[m] != top {
        assert stack[m] < stack[|stack| - 1];
      }
    }
    assert forall c :: c in stack <==> c in stack' || c == top;
    forall x | 0 <= x < |out| ensures Anc(pidx, top, x) <==> top <= x <= |out| - 1 {
      if Anc(pidx, top, x) {
        AncLe(pidx, top, x);
      }
    }
  }

  lemma {:induction false} PopChildless<T>(out: seq<T>, stack: seq<nat>, remaining: seq<Entry<T>>)
    requires ClosedChildless(out, stack, remaining) && stack != [] && stack[|stack| - 1] < |out|
    requires forall i :: 0 <= i < |remaining| ==> remaining[i].1 != Some(out[stack[|stack| - 1]])
    ensures ClosedChildless(out, stack[..|stack| - 1], remaining)
  {
    var stack' := stack[..|stack| - 1];
    assert forall c :: c in stack <==> c in stack' || c == stack[|stack| - 1];
  }

  lemma {:induction false} PopId<T>(out: seq<T>, top: nat)
    requires top < |out|
    requires forall i, j :: 0 <= i < j < |out| ==> out[i] != out[j]
    ensures IdOf(out, out[top]) == Some(top)
  {
  }

  /** One step that closes the innermost open type, or the root marker, once it has no remaining child. */
  lemma {:induction false} PopStep<T>(input: seq<Entry<T>>, remaining: seq<Entry<T>>, out: seq<T>,
                                      last: map<TypeId, TypeId>, trace: seq<Option<T>>, stack: seq<nat>,
                                      pidx: seq<int>, placed: seq<Entry<T>>)
    requires Inv(input, remaining, out, last, trace, stack, pidx, placed)
    requires trace != []
    requires forall i :: 0 <= i < |remaining| ==> remaining[i].1 != trace[|trace| - 1]
    ensures trace[|trace| - 1].Some? <==> stack != []
    ensures stack != [] ==> IdOf(out, trace[|trace| - 1].value) == Some(stack[|stack| - 1])
    ensures stack != [] ==> Inv(input, remaining, out, last[stack[|stack| - 1] := |out| - 1], trace[..|trace| - 1],
                                stack[..|stack| - 1], pidx, placed)
    ensures stack == [] ==> Inv(input, remaining, out, last, trace[..|trace| - 1], stack, pidx, placed)
  {
    PopOpen(out, trace, stack, pidx);
    if stack != [] {
      var top := stack[|stack| - 1];
      assert trace[|trace| - 1] == Some(out[top]);
      PopRanges(out, last, trace, stack, pidx);
      PopChildless(out, stack, remaining);
      PopId(out, top);
    } else {
      assert forall i :: 0 <= i < |remaining| ==> remaining[i].1 != None;
    }
  }

  lemma {:induction false} PlacedReachable<T>(input: seq<Entry<T>>, remaining: seq<Entry<T>>, out: seq<T>,
                                                   placed: seq<Entry<T>>, pidx: seq<int>, j: nat)
    requires Placement(input, remaining, out, placed, pidx) && j < |out|
    ensures ReachIn(input, placed[j], j)
    decreases j
  {
    if pidx[j] >= 0 {
      var p := pidx[j];
      PlacedReachable(input, remaining, out, placed, pidx, p);
      ReachMonotone(input, placed[p], p, j - 1);
      assert placed[p] in input && placed[j].1 == Some(placed[p].0);
    }
  }

  lemma {:induction false} RemainingUnreachable<T>(input: seq<Entry<T>>, remaining: seq<Entry<T>>, out: seq<T>,
                                                       last: map<TypeId, TypeId>, pidx: seq<int>, placed: seq<Entry<T>>,
                                                       e: Entry<T>, k: nat)
    requires Inv(input, remaining, out, last, [], [], pidx, placed)
    requires ReachIn(input, e, k)
    ensures e !in remaining
    decreases k
  {
    if e in remaining && e.1.Some? {
      var f :| f in input && e.1 == Some(f.0) && ReachIn(input, f, k - 1);
      RemainingUnreachable(input, remaining, out, last, pidx, placed, f, k - 1);
    }
  }

  /** The types left over once the trace is empty are unreachable. */
  lemma {:induction false} Leftovers<T>(input: seq<Entry<T>>, remaining: seq<Entry<T>>, out: seq<T>,
                                        last: map<TypeId, TypeId>, stack: seq<nat>, pidx: seq<int>, placed: seq<Entry<T>>)
    requires Inv(input, remaining, out, last, [], stack, pidx, placed)
    ensures forall e :: e in remaining ==> e in input && !Reachable(input, e)
  {
    forall e | e in remaining ensures !Reachable(input, e) {
      if Reachable(input, e) {
        var k :| ReachIn(input, e, k);
        assert stack == [];
        RemainingUnreachable(input, remaining, out, last, pidx, placed, e, k);
      }
    }
  }

  /** What the completed numbering gives when every type was placed. */
  lemma {:induction false} Completed<T>(input: seq<Entry<T>>, out: seq<T>, last: map<TypeId, TypeId>,
                                        pidx: seq<int>, placed: seq<Entry<T>>)
    requires DistinctNames(input)
    requires Inv(input, [], out, last, [], [], pidx, placed)
    ensures forall e :: e in input ==> Reachable(input, e)
    ensures var h := TypeHierarchy(out, last);
      && WellFormed(h)
      && |h.types| == |input| == |pidx|
      && (forall e :: e in input ==> e.0 in h.types)
      && (forall j :: 0 <= j < |pidx| ==>
            && -1 <= pidx[j] < j
            && (h.types[j], if pidx[j] < 0 then None else Some(h.types[pidx[j]])) in input)
      && (forall i, j :: 0 <= i < |pidx| && 0 <= j < |pidx| ==> (IsSubtype(h, i, j) <==> Anc(pidx, i, j)))
  {
    CompletedEntries(input, out, placed, pidx);
    CompletedRanges(out, last, pidx);
  }

  lemma {:induction false} CompletedEntries<T>(input: seq<Entry<T>>, out: seq<T>, placed: seq<Entry<T>>, pidx: seq<int>)
    requires DistinctNames(input)
    requires Placement(input, [], out, placed, pidx)
    ensures forall e :: e in input ==> Reachable(input, e) && e.0 in out
    ensures |out| == |input| == |pidx|
    ensures forall j :: 0 <= j < |pidx| ==>
      && -1 <= pidx[j] < j
      && (out[j], if pidx[j] < 0 then None else Some(out[pidx[j]])) in input
  {
    forall e | e in input ensures Reachable(input, e) && e.0 in out {
      var j :| 0 <= j < |placed| && placed[j] == e;
      PlacedReachable(input, [], out, placed, pidx, j);
    }
    PlacedCount(input, out, placed);
    forall j | 0 <= j < |pidx|
      ensures (out[j], if pidx[j] < 0 then None else Some(out[pidx[j]])) in input
    {
      assert placed[j] in input;
    }
  }

  lemma {:induction false} CompletedRanges<T>(out: seq<T>, last: map<TypeId, TypeId>, pidx: seq<int>)
    requires |pidx| == |out| && ClosedRanges(|out|, last, [], pidx)
    ensures WellFormed(TypeHierarchy(out, last))
    ensures forall i, j :: 0 <= i < |pidx| && 0 <= j < |pidx| ==>
      (IsSubtype(TypeHierarchy(out, last), i, j) <==> Anc(pidx, i, j))
  {
  }

  lemma {:induction false} Initial<T>(input: seq<Entry<T>>)
    requires DistinctNames(input)
    ensures Inv(input, input, [], map[], [None], [], [], [])
  {
  }

  /** The loop step of `new` that moves the child found at `pos` from the remaining types to the trace. */
  method OpenChild<T(==)>(ghost input: seq<Entry<T>>, remaining: seq<Entry<T>>, out: seq<T>, last: map<TypeId, TypeId>,
                          trace: seq<Option<T>>, ghost stack: seq<nat>, ghost pidx: seq<int>, ghost placed: seq<Entry<T>>,
                          pos: nat)
    returns (remaining': seq<Entry<T>>, out': seq<T>, trace': seq<Option<T>>,
             ghost stack': seq<nat>, ghost pidx': seq<int>, ghost placed': seq<Entry<T>>)
    requires Inv(input, remaining, out, last, trace, stack, pidx, placed)
    requires trace != [] && pos < |remaining| && remaining[pos].1 == trace[|trace| - 1]
    ensures Inv(input, remaining', out', last, trace', stack', pidx', placed')
    ensures remaining' == Remove(remaining, pos) && out' == out + [remaining[pos].0]
    ensures trace' == trace + [Some(remaining[pos].0)]
  {
    var child := remaining[pos];
    PushStep(input, remaining, out, last, trace, stack, pidx, placed, pos);
    remaining' := Remove(remaining, pos);
    out' := out + [child.0];
    trace' := trace + [Some(child.0)];
    stack' := stack + [|out|];
    pidx' := pidx + [Top(stack)];
    placed' := placed + [child];
  }

  /**
   * The loop step of `new` once the top of the trace has no remaining child: a type records the id
   * of the last type placed as its last subtype, and the trace drops it.
   */
  method CloseParent<T(==)>(ghost input: seq<Entry<T>>, remaining: seq<Entry<T>>, out: seq<T>, last: map<TypeId, TypeId>,
                            trace: seq<Option<T>>, ghost stack: seq<nat>, ghost pidx: seq<int>, ghost placed: seq<Entry<T>>)
    returns (last': map<TypeId, TypeId>, trace': seq<Option<T>>, ghost stack': seq<nat>)
    requires Inv(input, remaining, out, last, trace, stack, pidx, placed)
    requires trace != [] && forall i :: 0 <= i < |remaining| ==> remaining[i].1 != trace[|trace| - 1]
    ensures Inv(input, remaining, out, last', trace', stack', pidx, placed)
    ensures trace' == trace[..|trace| - 1]
    ensures trace[|trace| - 1].None? ==> last' == last
    ensures trace[|trace| - 1].Some? ==> exists id :: 0 <= id < |out| && out[id] == trace[|trace| - 1].value
                                                     && last' == last[id := |out| - 1]
  {
    var parent := trace[|trace| - 1];
    PopStep(input, remaining, out, last, trace, stack, pidx, placed);
    last', stack' := last, stack;
    if parent.Some? {
      var parentId := IdOf(out, parent.value).value;
      last' := last[parentId := |out| - 1];
      stack' := stack[..|stack| - 1];
    }
    trace' := trace[..|trace| - 1];
  }

  /**
   * `TypeHierarchy::new`: numbers the types depth-first from the parentless roots. It fails with the
   * entries left over when some type cannot be reached from a root.
   * `pidx[j]` is the id of the parent of type `j`, or -1 for a root.
   */
  method New<T(==)>(input: seq<Entry<T>>) returns (r: Result<TypeHierarchy<T>, seq<Entry<T>>>, ghost pidx: seq<int>)
    requires DistinctNames(input)
    ensures r.Ok? <==> forall e :: e in input ==> Reachable(input, e)
    ensures r.Err? ==> |r.error| > 0 && forall e :: e in r.error ==> e in input && !Reachable(input, e)
    ensures r.Ok? ==>
      && WellFormed(r.value)
      && |r.value.types| == |input| == |pidx|
      && (forall e :: e in input ==> e.0 in r.value.types)
      && (forall j :: 0 <= j < |pidx| ==>
            && -1 <= pidx[j] < j
            && (r.value.types[j], if pidx[j] < 0 then None else Some(r.value.types[pidx[j]])) in input)
      && (forall i, j :: 0 <= i < |pidx| && 0 <= j < |pidx| ==> (IsSubtype(r.value, i, j) <==> Anc(pidx, i, j)))
  {
    var remaining := input;
    var out: seq<T> := [];
    var last: map<TypeId, TypeId> := map[];
    var trace: seq<Option<T>> := [None];
    ghost var stack: seq<nat> := [];
    ghost var placed: seq<Entry<T>> := [];
    pidx := [];
    Initial(input);
    while trace != []
      invariant Inv(input, remaining, out, last, trace, stack, pidx, placed)
      decreases 2 * |remaining| + |trace|
    {
      var parent := trace[|trace| - 1];
      var pos := Position(remaining, parent);
      if pos.Some? {
        remaining, out, trace, stack, pidx, placed := OpenChild(input, remaining, out, last, trace, stack, pidx, placed, pos.value);
      } else {
        last, trace, stack := CloseParent(input, remaining, out, last, trace, stack, pidx, placed);
      }
    }
    Finished(input, remaining, out, last, trace, stack, pidx, placed);
    if remaining == [] {
      r := Ok(TypeHierarchy(out, last));
    } else {
      assert remaining[0] in remaining;
      r := Err(remaining);
    }
  }

  /** What `new` concludes once the trace is empty. */
  lemma {:induction false} Finished<T>(input: seq<Entry<T>>, remaining: seq<Entry<T>>, out: seq<T>, last: map<TypeId, TypeId>,
                                       trace: seq<Option<T>>, stack: seq<nat>, pidx: seq<int>, placed: seq<Entry<T>>)
    requires DistinctNames(input)
    requires Inv(input, remaining, out, last, trace, stack, pidx, placed) && trace == []
    ensures forall e :: e in remaining ==> e in input && !Reachable(input, e)
    ensures remaining == [] ==> forall e :: e in input ==> Reachable(input, e)
    ensures remaining == [] ==> var h := TypeHierarchy(out, last);
      && WellFormed(h)
      && |h.types| == |input| == |pidx|
      && (forall e :: e in input ==> e.0 in h.types)
      && (forall j :: 0 <= j < |pidx| ==>
            && -1 <= pidx[j] < j
            && (h.types[j], if pidx[j] < 0 then None else Some(h.types[pidx[j]])) in input)
      && (forall i, j :: 0 <= i < |pidx| && 0 <= j < |pidx| ==> (IsSubtype(h, i, j) <==> Anc(pidx, i, j)))
  {
    Leftovers(input, remaining, out, last, stack, pidx, placed);
    if remaining == [] {
      assert stack == [];
      Completed(input, out, last, pidx, placed);
    }
  }

  /** With distinct names, placing every input entry places exactly as many types as entries. */
  lemma {:induction false} PlacedCount<T>(input: seq<Entry<T>>, out: seq<T>, placed: seq<Entry<T>>)
    requires DistinctNames(input) && |placed| == |out|
    requires forall j :: 0 <= j < |out| ==> placed[j].0 == out[j]
    requires forall i, j :: 0 <= i < j < |out| ==> out[i] != out[j]
    requires forall e :: e in placed ==> e in input
    requires forall e :: e in input ==> e in placed
    ensures |out| == |input|
  {
    var placedSet := set j | 0 <= j < |placed| :: placed[j];
    var inputSet := set i | 0 <= i < |input| :: input[i];
    forall e ensures e in placedSet <==> e in inputSet {
      if e in placedSet {
        assert e in placed;
        assert e in input;
      }
      if e in inputSet {
        assert e in input;
        assert e in placed;
      }
    }
    assert placedSet == inputSet;
    DistinctCard(placed);
    DistinctCard(input);
  }

  lemma {:induction false} DistinctCard<T>(s: seq<Entry<T>>)
    requires forall i, j :: 0 <= i < j < |s| ==> s[i].0 != s[j].0
    ensures |set i | 0 <= i < |s| :: s[i]| == |s|
  {
    if |s| > 0 {
      var s' := s[..|s| - 1];
      DistinctCard(s');
      var a := set i | 0 <= i < |s'| :: s'[i];
      var b := set i | 0 <= i < |s| :: s[i];
      assert b == a + {s[|s| - 1]};
      assert s[|s| - 1] !in a;
    }
  }
}
