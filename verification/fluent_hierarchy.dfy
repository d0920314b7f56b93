/**
 * The fluent hierarchy of a planning problem
 * (planning/planning/src/chronicles/preprocessing/fluent_hierarchy.rs): every template links the
 * symbols its conditions and effects may name to the symbols its effects may name, and the
 * strongly connected components of those links are listed by `ordered_scc`.
 *
 * A condition or an effect is reduced to the first atom of its state variable, the only part
 * `hierarchy` reads.
 */
module FluentHierarchy {
  import opened Atoms
  import opened Assignments
  import TarjanState
  import Tarjan

  /** A chronicle template: the fluents of its conditions and of its effects. */
  datatype Template = Template(conditions: seq<SAtom>, effects: seq<SAtom>)

  /** One call `add_link(src, tgt)`. */
  type Link = (SAtom, SAtom)

  type Links = map<SymId, set<SymId>>

  /** Symbols stay below this bound, so that the search numbers every vertex within a `u64`. */
  const SYM_LIMIT: nat := TarjanState.NOT_DONE - 1

  /** An atom whose symbol domain can be computed and lies below `SYM_LIMIT`. */
  predicate Usable(asg: Assignment, a: SAtom)
  {
    && (a.atom.Var? ==>
          && -0x8000_0000 <= asg.varDomain(a.atom.svar).lb < 0x8000_0000
          && -0x8000_0000 <= asg.varDomain(a.atom.svar).ub < 0x8000_0000)
    && SymDomainOf(asg, a).last < SYM_LIMIT
  }

  /** The symbols `lo..hi`. */
  ghost function Range(lo: nat, hi: nat): set<SymId>
    decreases hi
  {
    if hi <= lo then {} else Range(lo, hi - 1) + {hi - 1}
  }

  lemma {:induction false} RangeIn(lo: nat, hi: nat)
    ensures forall x :: x in Range(lo, hi) <==> lo <= x < hi
    decreases hi
  {
    if lo < hi {
      RangeIn(lo, hi - 1);
    }
  }

  /** The symbols iterated by `sym_domain_of(a)`: `first..=last` (empty when `first > last`). */
  ghost function Dom(asg: Assignment, a: SAtom): (r: set<SymId>)
    ensures forall s :: s in r ==> s < SYM_LIMIT
  {
    if Usable(asg, a) then
      var c := SymDomainOf(asg, a);
      RangeIn(c.first, c.last + 1);
      Range(c.first, c.last + 1)
    else {}
  }

  /** The links after `add_link` with the source symbols `src` and the target symbols `tgt`. */
  ghost function LinkOf(links: Links, src: set<SymId>, tgt: set<SymId>): Links
  {
    map s | s in links.Keys + src :: (if s in links then links[s] else {}) + (if s in src then tgt else {})
  }

  /** The links after the calls `ls`, in order, starting from `m`. */
  ghost function Fold(asg: Assignment, m: Links, ls: seq<Link>): Links
    decreases |ls|
  {
    if ls == [] then m
    else
      var last := ls[|ls| - 1];
      LinkOf(Fold(asg, m, ls[..|ls| - 1]), Dom(asg, last.0), Dom(asg, last.1))
  }

  /** The calls `add_link(cond, eff)` for the conditions `conds`, in order. */
  ghost function CondLinks(conds: seq<SAtom>, eff: SAtom): seq<Link>
    decreases |conds|
  {
    if conds == [] then [] else CondLinks(conds[..|conds| - 1], eff) + [(conds[|conds| - 1], eff)]
  }

  /** The calls `add_link(eff, eff2)` for the effects `effs`, in order. */
  ghost function EffLinks(eff: SAtom, effs: seq<SAtom>): seq<Link>
    decreases |effs|
  {
    if effs == [] then [] else EffLinks(eff, effs[..|effs| - 1]) + [(eff, effs[|effs| - 1])]
  }

  /** The calls made for the effects `effs` of a template with conditions `conds` and effects `all`. */
  ghost function TemplateLinks(conds: seq<SAtom>, effs: seq<SAtom>, all: seq<SAtom>): seq<Link>
    decreases |effs|
  {
    if effs == [] then []
    else
      var eff := effs[|effs| - 1];
      TemplateLinks(conds, effs[..|effs| - 1], all) + CondLinks(conds, eff) + EffLinks(eff, all)
  }

  /** Every call `add_link` made by `hierarchy`, in order. */
  ghost function HierarchyLinks(ts: seq<Template>): seq<Link>
    decreases |ts|
  {
    if ts == [] then []
    else
      var t := ts[|ts| - 1];
      HierarchyLinks(ts[..|ts| - 1]) + TemplateLinks(t.conditions, t.effects, t.effects)
  }

  /**
   * The `add_link` closure: every source symbol becomes a key, and gets every target symbol as a
   * successor.
   */
  method AddLink(links: Links, src: SAtom, tgt: SAtom, asg: Assignment) returns (r: Links)
    requires Usable(asg, src) && Usable(asg, tgt)
    ensures r == LinkOf(links, Dom(asg, src), Dom(asg, tgt))
  {
    hide LinkOf, Fold, Range;
    var cs := SymDomainOf(asg, src);
    ghost var tgts := Dom(asg, tgt);
    r := links;
    var s := cs.first;
    LinkNone(links, cs.first, tgts);
    while s <= cs.last
      invariant cs.first <= s && (s <= cs.last + 1 || s == cs.first)
      invariant r == LinkOf(links, Range(cs.first, s), tgts)
      decreases cs.last + 1 - s
    {
      RangeIn(cs.first, s);
      LinkAdd(links, Range(cs.first, s), s, tgts);
      RangeStep(cs.first, s);
      r := LinkSource(r, s, tgt, asg);
      s := s + 1;
    }
    RangeEnd(cs.first, cs.last, s);
  }

  /** The body of the outer loop of `add_link`: `s` becomes a key linked to every target symbol. */
  method LinkSource(links: Links, s: SymId, tgt: SAtom, asg: Assignment) returns (r: Links)
    requires Usable(asg, tgt)
    ensures r == links[s := (if s in links then links[s] else {}) + Dom(asg, tgt)]
  {
    r := links;
    if s !in r {
      r := r[s := {}];
    }
    var ct := SymDomainOf(asg, tgt);
    var t := ct.first;
    ghost var acc := r[s];
    assert acc + Range(ct.first, t) == acc;
    while t <= ct.last
      invariant ct.first <= t && (t <= ct.last + 1 || t == ct.first)
      invariant s in r && r[s] == acc + Range(ct.first, t) && r == links[s := r[s]]
      decreases ct.last + 1 - t
    {
      RangeStep(ct.first, t);
      r := r[s := r[s] + {t}];
      t := t + 1;
    }
    RangeEnd(ct.first, ct.last, t);
  }

  lemma {:induction false} RangeStep(lo: nat, t: nat)
    requires lo <= t
    ensures Range(lo, t + 1) == Range(lo, t) + {t}
  {
  }

  /** A loop over `lo..=hi` that has stopped at `t` has gone over `Range(lo, hi + 1)`. */
  lemma {:induction false} RangeEnd(lo: nat, hi: nat, t: nat)
    requires lo <= t && (t <= hi + 1 || t == lo) && !(t <= hi)
    ensures Range(lo, t) == Range(lo, hi + 1)
  {
    if t != hi + 1 {
      assert Range(lo, t) == {};
      RangeIn(lo, hi + 1);
    }
  }

  lemma {:induction false} LinkNone(links: Links, lo: nat, tgts: set<SymId>)
    ensures LinkOf(links, Range(lo, lo), tgts) == links
  {
    var r := LinkOf(links, Range(lo, lo), tgts);
    assert r.Keys == links.Keys;
    forall k | k in r ensures r[k] == links[k] {
    }
  }

  /** One more source symbol `s` linked to the whole of `tgts`. */
  lemma {:induction false} LinkAdd(links: Links, src: set<SymId>, s: SymId, tgts: set<SymId>)
    requires s !in src
    ensures var r := LinkOf(links, src, tgts);
      LinkOf(links, src + {s}, tgts) == r[s := (if s in r then r[s] else {}) + tgts]
  {
    var r0 := LinkOf(links, src, tgts);
    assert s in r0 <==> s in links;
    assert s in links ==> r0[s] == links[s];
    var l, r := LinkOf(links, src + {s}, tgts), r0[s := (if s in links then links[s] else {}) + tgts];
    assert l.Keys == r.Keys;
    forall k | k in l ensures l[k] == r[k] {
    }
  }

  /** `hierarchy`: the links of every template, then their components in `ordered_scc` order. */
  method Hierarchy(ts: seq<Template>, asg: Assignment) returns (links: Links, groups: seq<seq<SymId>>, ghost comp: map<SymId, nat>)
    requires forall t, a :: t in ts && (a in t.conditions || a in t.effects) ==> Usable(asg, a)
    ensures links == Fold(asg, map[], HierarchyLinks(ts))
    ensures comp.Keys == links.Keys && Tarjan.Grouped(groups, comp, |groups|, links.Keys)
  {
    hide *;
    links := map[];
    HierarchySnoc(ts, 0);
    FoldNil(asg, map[]);
    for i := 0 to |ts|
      invariant links == Fold(asg, map[], HierarchyLinks(ts[..i]))
    {
      links := LinkTemplate(links, ts[i], asg);
      FoldAppend(asg, map[], HierarchyLinks(ts[..i]), TemplateLinks(ts[i].conditions, ts[i].effects, ts[i].effects));
      HierarchySnoc(ts, i);
    }
    HierarchySnoc(ts, |ts|);
    HierarchyClosed(ts, asg);
    HierarchyBelow(ts, asg);
    groups, comp := Tarjan.OrderedScc(links);
  }

  /** The loop of `hierarchy` over the effects of one template. */
  method LinkTemplate(links: Links, t: Template, asg: Assignment) returns (r: Links)
    requires forall a :: a in t.conditions || a in t.effects ==> Usable(asg, a)
    ensures r == Fold(asg, links, TemplateLinks(t.conditions, t.effects, t.effects))
  {
    hide *;
    r := links;
    TemplateSnoc(t, 0);
    FoldNil(asg, links);
    for j := 0 to |t.effects|
      invariant r == Fold(asg, links, TemplateLinks(t.conditions, t.effects[..j], t.effects))
    {
      var eff := t.effects[j];
      ghost var before := TemplateLinks(t.conditions, t.effects[..j], t.effects);
      r := LinkConditions(r, t.conditions, eff, asg);
      r := LinkEffects(r, eff, t.effects, asg);
      FoldAppend(asg, Fold(asg, links, before), CondLinks(t.conditions, eff), EffLinks(eff, t.effects));
      FoldAppend(asg, links, before, CondLinks(t.conditions, eff) + EffLinks(eff, t.effects));
      TemplateSnoc(t, j);
    }
    TemplateSnoc(t, |t.effects|);
  }

  /** The loop of `hierarchy` linking every condition to the effect `eff`. */
  method LinkConditions(links: Links, conds: seq<SAtom>, eff: SAtom, asg: Assignment) returns (r: Links)
    requires Usable(asg, eff) && forall a :: a in conds ==> Usable(asg, a)
    ensures r == Fold(asg, links, CondLinks(conds, eff))
  {
    hide *;
    r := links;
    LinksSnoc(conds, eff, 0);
    FoldNil(asg, links);
    for c := 0 to |conds|
      invariant r == Fold(asg, links, CondLinks(conds[..c], eff))
    {
      r := AddLink(r, conds[c], eff, asg);
      LinksSnoc(conds, eff, c);
      FoldSnoc(asg, links, CondLinks(conds[..c], eff), (conds[c], eff));
    }
    LinksSnoc(conds, eff, |conds|);
  }

  /** The loop of `hierarchy` linking the effect `eff` to every effect. */
  method LinkEffects(links: Links, eff: SAtom, effs: seq<SAtom>, asg: Assignment) returns (r: Links)
    requires Usable(asg, eff) && forall a :: a in effs ==> Usable(asg, a)
    ensures r == Fold(asg, links, EffLinks(eff, effs))
  {
    hide *;
    r := links;
    LinksSnoc(effs, eff, 0);
    FoldNil(asg, links);
    for e := 0 to |effs|
      invariant r == Fold(asg, links, EffLinks(eff, effs[..e]))
    {
      r := AddLink(r, eff, effs[e], asg);
      LinksSnoc(effs, eff, e);
      FoldSnoc(asg, links, EffLinks(eff, effs[..e]), (eff, effs[e]));
    }
    LinksSnoc(effs, eff, |effs|);
  }

  /** The calls for the first `c` atoms of `atoms`, as made by the loops of `hierarchy`. */
  lemma {:induction false} LinksSnoc(atoms: seq<SAtom>, eff: SAtom, c: nat)
    requires c <= |atoms|
    ensures c == 0 ==> CondLinks(atoms[..c], eff) == [] && EffLinks(eff, atoms[..c]) == []
    ensures c == |atoms| ==> atoms[..c] == atoms
    ensures c < |atoms| ==> CondLinks(atoms[..c + 1], eff) == CondLinks(atoms[..c], eff) + [(atoms[c], eff)]
    ensures c < |atoms| ==> EffLinks(eff, atoms[..c + 1]) == EffLinks(eff, atoms[..c]) + [(eff, atoms[c])]
  {
    if c < |atoms| {
      assert atoms[..c + 1][..c] == atoms[..c];
    }
  }

  lemma {:induction false} TemplateSnoc(t: Template, j: nat)
    requires j <= |t.effects|
    ensures j == 0 ==> TemplateLinks(t.conditions, t.effects[..j], t.effects) == []
    ensures j == |t.effects| ==> t.effects[..j] == t.effects
    ensures j < |t.effects| ==>
      TemplateLinks(t.conditions, t.effects[..j + 1], t.effects)
        == TemplateLinks(t.conditions, t.effects[..j], t.effects)
           + (CondLinks(t.conditions, t.effects[j]) + EffLinks(t.effects[j], t.effects))
  {
    hide CondLinks, EffLinks;
    if j < |t.effects| {
      var effs := t.effects[..j + 1];
      assert effs[..j] == t.effects[..j] && effs[j] == t.effects[j];
      var a := TemplateLinks(t.conditions, t.effects[..j], t.effects);
      var b := CondLinks(t.conditions, t.effects[j]);
      var c := EffLinks(t.effects[j], t.effects);
      assert TemplateLinks(t.conditions, effs, t.effects) == a + b + c;
      assert a + b + c == a + (b + c);
    }
  }

  lemma {:induction false} HierarchySnoc(ts: seq<Template>, i: nat)
    requires i <= |ts|
    ensures i == 0 ==> HierarchyLinks(ts[..i]) == []
    ensures i == |ts| ==> ts[..i] == ts
    ensures i < |ts| ==>
      HierarchyLinks(ts[..i + 1]) == HierarchyLinks(ts[..i]) + TemplateLinks(ts[i].conditions, ts[i].effects, ts[i].effects)
  {
    if i < |ts| {
      assert ts[..i + 1][..i] == ts[..i];
    }
  }

  lemma {:induction false} FoldNil(asg: Assignment, m: Links)
    ensures Fold(asg, m, []) == m
  {
  }

  lemma {:induction false} FoldSnoc(asg: Assignment, m: Links, ls: seq<Link>, l: Link)
    ensures Fold(asg, m, ls + [l]) == LinkOf(Fold(asg, m, ls), Dom(asg, l.0), Dom(asg, l.1))
  {
    assert (ls + [l])[..|ls|] == ls;
  }

  /** Making the calls `a` then the calls `b` is making the calls `a + b`. */
  lemma {:induction false} FoldAppend(asg: Assignment, m: Links, a: seq<Link>, b: seq<Link>)
    ensures Fold(asg, m, a + b) == Fold(asg, Fold(asg, m, a), b)
    decreases |b|
  {
    if b == [] {
      assert a + b == a;
    } else {
      assert (a + b)[..|a + b| - 1] == a + b[..|b| - 1];
      FoldAppend(asg, m, a, b[..|b| - 1]);
    }
  }

  /** The keys and successors after the calls `ls`: those of `m`, and those the calls add. */
  lemma {:induction false} FoldIn(asg: Assignment, m: Links, ls: seq<Link>)
    ensures forall s :: s in Fold(asg, m, ls) <==> s in m || exists l :: l in ls && s in Dom(asg, l.0)
    ensures forall s, x :: s in Fold(asg, m, ls) ==>
      (x in Fold(asg, m, ls)[s] <==> (s in m && x in m[s]) || exists l :: l in ls && s in Dom(asg, l.0) && x in Dom(asg, l.1))
    decreases |ls|
  {
    if ls != [] {
      var init, last := ls[..|ls| - 1], ls[|ls| - 1];
      FoldIn(asg, m, init);
      assert ls == init + [last];
      forall l | l in ls ensures l in init || l == last {
      }
    }
  }

  lemma {:induction false} CondLinksIn(conds: seq<SAtom>, eff: SAtom)
    ensures forall l :: l in CondLinks(conds, eff) <==> l.0 in conds && l.1 == eff
    decreases |conds|
  {
    if conds != [] {
      var init := conds[..|conds| - 1];
      CondLinksIn(init, eff);
      assert conds == init + [conds[|conds| - 1]];
    }
  }

  lemma {:induction false} EffLinksIn(eff: SAtom, effs: seq<SAtom>)
    ensures forall l :: l in EffLinks(eff, effs) <==> l.0 == eff && l.1 in effs
    decreases |effs|
  {
    if effs != [] {
      var init := effs[..|effs| - 1];
      EffLinksIn(eff, init);
      assert effs == init + [effs[|effs| - 1]];
    }
  }

  lemma {:induction false} TemplateLinksIn(conds: seq<SAtom>, effs: seq<SAtom>, all: seq<SAtom>)
    ensures forall l :: l in TemplateLinks(conds, effs, all) <==> (l.0 in conds && l.1 in effs) || (l.0 in effs && l.1 in all)
    decreases |effs|
  {
    if effs != [] {
      var init, eff := effs[..|effs| - 1], effs[|effs| - 1];
      TemplateLinksIn(conds, init, all);
      CondLinksIn(conds, eff);
      EffLinksIn(eff, all);
      assert effs == init + [eff];
    }
  }

  /**
   * `hierarchy` links a condition or an effect of a template to each effect of the same template,
   * and makes no other call.
   */
  lemma {:induction false} HierarchyLinksIn(ts: seq<Template>)
    ensures forall l :: l in HierarchyLinks(ts) <==>
      exists t :: t in ts && l.1 in t.effects && (l.0 in t.conditions || l.0 in t.effects)
    decreases |ts|
  {
    if ts != [] {
      var init, t := ts[..|ts| - 1], ts[|ts| - 1];
      HierarchyLinksIn(init);
      TemplateLinksIn(t.conditions, t.effects, t.effects);
      assert ts == init + [t];
    }
  }

  /**
   * After `hierarchy`, symbol `x` is a successor of symbol `s` exactly when some template has a
   * condition or an effect that may name `s` and an effect that may name `x`.
   */
  lemma {:induction false} HierarchyLinked(ts: seq<Template>, asg: Assignment)
    ensures var links := Fold(asg, map[], HierarchyLinks(ts));
      forall s, x :: s in links && x in links[s] ==>
        exists t, a, e :: t in ts && (a in t.conditions || a in t.effects) && e in t.effects
          && s in Dom(asg, a) && x in Dom(asg, e)
    ensures var links := Fold(asg, map[], HierarchyLinks(ts));
      forall s, x, t, a, e ::
        (t in ts && (a in t.conditions || a in t.effects) && e in t.effects && s in Dom(asg, a) && x in Dom(asg, e))
        ==> s in links && x in links[s]
  {
    hide Fold, LinkOf, Dom, Range, HierarchyLinks, TemplateLinks, CondLinks, EffLinks;
    var links := Fold(asg, map[], HierarchyLinks(ts));
    FoldIn(asg, map[], HierarchyLinks(ts));
    HierarchyLinksIn(ts);
    forall s, x | s in links && x in links[s]
      ensures exists t, a, e :: (t in ts && (a in t.conditions || a in t.effects) && e in t.effects
          && s in Dom(asg, a) && x in Dom(asg, e))
    {
      var l :| l in HierarchyLinks(ts) && s in Dom(asg, l.0) && x in Dom(asg, l.1);
      var t :| t in ts && l.1 in t.effects && (l.0 in t.conditions || l.0 in t.effects);
      var a, e := l.0, l.1;
      assert t in ts && (a in t.conditions || a in t.effects) && e in t.effects && s in Dom(asg, a) && x in Dom(asg, e);
    }
    forall s, x, t, a, e | t in ts && (a in t.conditions || a in t.effects) && e in t.effects
        && s in Dom(asg, a) && x in Dom(asg, e)
      ensures s in links && x in links[s]
    {
      assert (a, e) in HierarchyLinks(ts);
    }
  }

  /** Every successor is itself a key, as `tarjan` requires of its graph. */
  lemma {:induction false} HierarchyClosed(ts: seq<Template>, asg: Assignment)
    ensures TarjanState.Closed(Fold(asg, map[], HierarchyLinks(ts)))
  {
    hide Fold, LinkOf, Dom, Range, HierarchyLinks, TemplateLinks, CondLinks, EffLinks;
    var links := Fold(asg, map[], HierarchyLinks(ts));
    HierarchyLinked(ts, asg);
    FoldIn(asg, map[], HierarchyLinks(ts));
    HierarchyLinksIn(ts);
    forall s, x | s in links && x in links[s] ensures x in links {
      var t, a, e :| t in ts && (a in t.conditions || a in t.effects) && e in t.effects
        && s in Dom(asg, a) && x in Dom(asg, e);
      assert (e, e) in HierarchyLinks(ts);
    }
  }

  /** There are fewer keys than the search can number. */
  lemma {:induction false} HierarchyBelow(ts: seq<Template>, asg: Assignment)
    ensures |Fold(asg, map[], HierarchyLinks(ts))| < TarjanState.NOT_DONE
  {
    var links := Fold(asg, map[], HierarchyLinks(ts));
    FoldIn(asg, map[], HierarchyLinks(ts));
    KeysBelow(links.Keys, SYM_LIMIT);
  }

  /** A set of symbols below `n` has at most `n` elements. */
  lemma {:induction false} KeysBelow(keys: set<SymId>, n: nat)
    requires forall s :: s in keys ==> s < n
    ensures |keys| <= n
    decreases n
  {
    if n > 0 {
      KeysBelow(keys - {n - 1}, n - 1);
    }
  }
}
