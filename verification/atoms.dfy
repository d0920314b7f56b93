/**
 * Atoms of the modelling language (model/src/lang/atom.rs): a boolean, integer or
 * symbolic atom, its kind, its integer view and the conversions between an atom and
 * the typed atoms it wraps.
 */
module Atoms {
  import opened Wrappers
  import opened Lits

  type IVar = nat
  type SVar = nat
  type SymId = nat

  /** An integer atom: an optional variable plus a constant shift. */
  datatype IAtom = IAtom(ivar: Option<IVar>, shift: int)

  datatype VarOrSym = Var(svar: SVar) | Sym(sym: SymId)

  /** A symbolic atom: a symbolic variable or a symbol constant. */
  datatype SAtom = SAtom(atom: VarOrSym)

  datatype Atom = Bool(lit: Lit) | Int(iatom: IAtom) | SymAtom(satom: SAtom)

  datatype Kind = BoolKind | IntKind | SymKind

  datatype ConversionError = TypeError

  /** The integer constant `c`, as produced by `c.into()`. */
  function Cst(c: int): IAtom { IAtom(None, c) }

  function KindOf(a: Atom): (k: Kind)
    ensures k == BoolKind <==> a.Bool?
    ensures k == IntKind <==> a.Int?
    ensures k == SymKind <==> a.SymAtom?
  {
    match a
    case Bool(_) => BoolKind
    case Int(_) => IntKind
    case SymAtom(_) => SymKind
  }

  /**
   * Integer view of an atom. The integer view of a symbolic atom belongs to the
   * symbolic atom and is passed in as `symView`.
   */
  function IntView(a: Atom, symView: SAtom -> IAtom): (r: Option<IAtom>)
    ensures a.Int? ==> r == Some(a.iatom)
    ensures a.SymAtom? ==> r == Some(symView(a.satom))
    ensures a.Bool? ==> (r.Some? <==> a.lit == TRUE || a.lit == FALSE)
    ensures a == Bool(TRUE) ==> r == Some(Cst(1))
    ensures a == Bool(FALSE) ==> r == Some(Cst(0))
  {
    match a
    case Bool(l) =>
      if l == TRUE then Some(Cst(1))
      else if l == FALSE then Some(Cst(0))
      else None
    case Int(i) => Some(i)
    case SymAtom(s) => Some(symView(s))
  }

  /** `TryFrom<Atom> for Lit`. */
  function ToLit(a: Atom): (r: Result<Lit, ConversionError>)
    ensures r.Ok? <==> a.Bool?
    ensures r.Ok? ==> Bool(r.value) == a
  {
    match a
    case Bool(b) => Ok(b)
    case _ => Err(TypeError)
  }

  /** `TryFrom<Atom> for IAtom`. */
  function ToIAtom(a: Atom): (r: Result<IAtom, ConversionError>)
    ensures r.Ok? <==> a.Int?
    ensures r.Ok? ==> Int(r.value) == a
  {
    match a
    case Int(i) => Ok(i)
    case _ => Err(TypeError)
  }

  /** `TryFrom<Atom> for SAtom`. */
  function ToSAtom(a: Atom): (r: Result<SAtom, ConversionError>)
    ensures r.Ok? <==> a.SymAtom?
    ensures r.Ok? ==> SymAtom(r.value) == a
  {
    match a
    case SymAtom(s) => Ok(s)
    case _ => Err(TypeError)
  }

  /** Wrapping a typed atom with `From` and unwrapping it with the matching `TryFrom` is the identity. */
  lemma {:induction false} WrapUnwrap(l: Lit, i: IAtom, s: SAtom)
    ensures ToLit(Bool(l)) == Ok(l)
    ensures ToIAtom(Int(i)) == Ok(i)
    ensures ToSAtom(SymAtom(s)) == Ok(s)
  {
  }

  /** Exactly one conversion succeeds for every atom, the one its kind names. */
  lemma {:induction false} KindSelectsConversion(a: Atom)
    ensures ToLit(a).Ok? <==> KindOf(a) == BoolKind
    ensures ToIAtom(a).Ok? <==> KindOf(a) == IntKind
    ensures ToSAtom(a).Ok? <==> KindOf(a) == SymKind
    ensures ToLit(a).Ok? || ToIAtom(a).Ok? || ToSAtom(a).Ok?
  {
  }

  /**
   * The integer view exists for every atom except a boolean atom that is neither of the
   * two constant literals, and the constants TRUE and FALSE are viewed as 1 and 0.
   */
  lemma {:induction false} IntViewDefinedness(a: Atom, symView: SAtom -> IAtom)
    ensures IntView(a, symView).None? <==> (a.Bool? && a.lit != TRUE && a.lit != FALSE)
    ensures IntView(Bool(TRUE), symView) != IntView(Bool(FALSE), symView)
  {
    NotInvolution(TRUE);
  }
}
