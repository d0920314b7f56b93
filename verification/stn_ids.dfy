/**
 * Identifiers and edges of the incremental STN (tnet/src/theory.rs): packed u32 edge ids,
 * directed-edge ids, difference constraints `target - source <= weight` and their negation,
 * the u32 encoding of the theory's update causes and the theory-propagation level.
 */
module StnIds {
  import opened Wrappers

  const U32: nat := 0x1_0000_0000

  /** `x << 1` on a u32: the top bit is shifted out. */
  function Shl1(x: nat): (r: nat)
    ensures r < U32 && r % 2 == 0
    ensures x < U32 / 2 ==> r == 2 * x
  {
    (2 * x) % U32
  }

  type Timepoint = nat

  /** An edge id: bit 0 tells whether the edge is the negation of the stored canonical edge. */
  datatype EdgeId = EdgeId(raw: nat)

  function BaseId(e: EdgeId): nat { e.raw / 2 }

  function IsNegated(e: EdgeId): bool { e.raw % 2 == 1 }

  function NewEdgeId(baseId: nat, negated: bool): (e: EdgeId)
    ensures e.raw < U32
    ensures IsNegated(e) == negated
    ensures baseId < U32 / 2 ==> BaseId(e) == baseId
    ensures U32 / 2 <= baseId < U32 ==> BaseId(e) == baseId - U32 / 2
  {
    if negated then EdgeId(Shl1(baseId) + 1) else EdgeId(Shl1(baseId))
  }

  /** `!e`: the id of the negated edge (`raw ^ 1`). */
  function NotEdgeId(e: EdgeId): (r: EdgeId)
    ensures BaseId(r) == BaseId(e) && IsNegated(r) == !IsNegated(e)
  {
    if e.raw % 2 == 0 then EdgeId(e.raw + 1) else EdgeId(e.raw - 1)
  }

  lemma NotEdgeIdInvolution(e: EdgeId)
    ensures NotEdgeId(NotEdgeId(e)) == e
  {
  }

  /** A directed view of an edge: bit 0 is 0 for the forward view, 1 for the backward view. */
  datatype DirEdge = DirEdge(raw: nat)

  function Forward(e: EdgeId): (d: DirEdge)
    ensures IsForward(d)
    ensures e.raw < U32 / 2 ==> EdgeOf(d) == e
  {
    DirEdge(Shl1(e.raw))
  }

  function Backward(e: EdgeId): (d: DirEdge)
    ensures !IsForward(d)
    ensures e.raw < U32 / 2 ==> EdgeOf(d) == e
  {
    DirEdge(Shl1(e.raw) + 1)
  }

  function IsForward(d: DirEdge): bool { d.raw % 2 == 0 }

  function EdgeOf(d: DirEdge): EdgeId { EdgeId(d.raw / 2) }

  /** Every directed edge is the forward or the backward view of its edge. */
  lemma DirEdgeViews(d: DirEdge)
    requires d.raw < U32
    ensures d == (if IsForward(d) then Forward(EdgeOf(d)) else Backward(EdgeOf(d)))
  {
  }

  /** The four directed views of base id `b`, in the order they are stored, are `4b .. 4b+3`. */
  lemma DirEdgesOfBase(b: nat)
    requires b < U32 / 4
    ensures Forward(NewEdgeId(b, false)).raw == 4 * b
    ensures Backward(NewEdgeId(b, false)).raw == 4 * b + 1
    ensures Forward(NewEdgeId(b, true)).raw == 4 * b + 2
    ensures Backward(NewEdgeId(b, true)).raw == 4 * b + 3
  {
  }

  /** The difference constraint `target - source <= weight`. */
  datatype Edge = Edge(source: Timepoint, target: Timepoint, weight: int)

  predicate EdgeHolds(e: Edge, time: Timepoint -> int)
  {
    time(e.target) - time(e.source) <= e.weight
  }

  predicate IsCanonical(e: Edge)
  {
    e.source < e.target || (e.source == e.target && e.weight >= 0)
  }

  predicate IsNegatedEdge(e: Edge) { !IsCanonical(e) }

  /** `not(target - source <= w)` is `source - target <= -w - 1`. */
  function Negated(e: Edge): (r: Edge)
    ensures forall time: Timepoint -> int :: EdgeHolds(r, time) <==> !EdgeHolds(e, time)
  {
    Edge(e.target, e.source, -e.weight - 1)
  }

  /** Negation is an involution and exactly one of an edge and its negation is canonical. */
  lemma NegatedProperties(e: Edge)
    ensures Negated(Negated(e)) == e
    ensures IsCanonical(e) != IsCanonical(Negated(e))
  {
  }

  /** `b - a <= 3` negates to `a - b <= -4`. */
  lemma NegationExample(a: Timepoint, b: Timepoint)
    ensures Negated(Edge(a, b, 3)) == Edge(b, a, -4)
  {
  }

  /** The cause payload of a model update performed by the STN. */
  datatype ModelUpdateCause = EdgePropagation(edge: DirEdge) | TheoryPropagation(index: nat)

  function EncodeCause(c: ModelUpdateCause): (enc: nat)
    ensures enc < U32
    ensures c.EdgePropagation? <==> enc % 2 == 0
  {
    match c
    case EdgePropagation(d) => Shl1(d.raw)
    case TheoryPropagation(i) => Shl1(i) + 1
  }

  function DecodeCause(enc: nat): (c: ModelUpdateCause)
    ensures c.EdgePropagation? <==> enc % 2 == 0
  {
    if enc % 2 == 0 then EdgePropagation(DirEdge(enc / 2)) else TheoryPropagation(enc / 2)
  }

  /** Decoding an encoded cause gives it back when its payload fits in 31 bits. */
  lemma CauseRoundTrip(c: ModelUpdateCause)
    requires match c
      case EdgePropagation(d) => d.raw < U32 / 2
      case TheoryPropagation(i) => i < U32 / 2
    ensures DecodeCause(EncodeCause(c)) == c
  {
  }

  /** Encoding a decoded u32 gives it back. */
  lemma CodeRoundTrip(enc: nat)
    requires enc < U32
    ensures EncodeCause(DecodeCause(enc)) == enc
  {
  }

  datatype TheoryPropagationLevel = NoPropagation | Bounds | Edges | Full

  /** Theory propagation on bound updates. */
  predicate OnBounds(l: TheoryPropagationLevel) { l == Bounds || l == Full }

  /** Theory propagation on edge additions. */
  predicate OnEdges(l: TheoryPropagationLevel) { l == Edges || l == Full }

  function LevelName(l: TheoryPropagationLevel): string
  {
    match l
    case NoPropagation => "none"
    case Bounds => "bounds"
    case Edges => "edges"
    case Full => "full"
  }

  function ParseLevel(s: string): (r: Result<TheoryPropagationLevel, string>)
    ensures r.Ok? <==> s in {"none", "bounds", "edges", "full"}
    ensures r.Ok? ==> LevelName(r.value) == s
    ensures r.Err? ==> r.error == "Unknown theory propagation level: " + s + ". Valid options: none, bounds, edges, full"
  {
    match s
    case "none" => Ok(NoPropagation)
    case "bounds" => Ok(Bounds)
    case "edges" => Ok(Edges)
    case "full" => Ok(Full)
    case _ => Err("Unknown theory propagation level: " + s + ". Valid options: none, bounds, edges, full")
  }

  /** Parsing the name of a level gives the level back; `full` enables both kinds of propagation. */
  lemma LevelRoundTrip(l: TheoryPropagationLevel)
    ensures ParseLevel(LevelName(l)) == Ok(l)
    ensures OnBounds(l) && OnEdges(l) <==> l == Full
    ensures !OnBounds(l) && !OnEdges(l) <==> l == NoPropagation
  {
  }

  /** `has_edge` as written: compares the base id with the number of directed constraints. */
  predicate HasEdgeAsWritten(numConstraints: nat, id: EdgeId)
  {
    BaseId(id) <= numConstraints
  }

  /** A store with no constraint at all claims to hold edge 0. */
  lemma HasEdgeAsWrittenAcceptsMissing()
    ensures HasEdgeAsWritten(0, NewEdgeId(0, false))
    ensures HasEdgeAsWritten(4, NewEdgeId(4, true))
  {
  }

  /** `has_edge` corrected: four directed constraints are stored per base id. */
  predicate HasEdge(numConstraints: nat, id: EdgeId)
  {
    BaseId(id) < numConstraints / 4
  }

  /** With the correction, an edge id is known iff both of its directed views index stored constraints. */
  lemma HasEdgeIffViewsStored(numConstraints: nat, id: EdgeId)
    requires numConstraints % 4 == 0 && id.raw < U32 / 2
    ensures HasEdge(numConstraints, id) <==> Forward(id).raw < numConstraints && Backward(id).raw < numConstraints
  {
  }
}
