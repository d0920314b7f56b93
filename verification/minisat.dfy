/**
 * The DIMACS CNF reader of the `minisat` binary (apps/src/bin/minisat.rs).
 *
 * The input is given as its lines. Lines starting with `c` are comments wherever they
 * appear; the first other line is the header and must start with `p`; every later line is
 * one clause, whose whitespace-separated tokens are non-zero `i32` literals ended by `0`.
 * Each absolute value names a boolean variable of the model, created the first time it is
 * met; a negative literal is the negation of its variable.
 */
module Dimacs {
  import opened Wrappers
  import opened Lits
  import OpenShop

  /** `var.into()` (the variable is true) or `!var`. */
  datatype CnfLit = Pos(v: VarRef) | Neg(v: VarRef)

  /** The disjunction `model.or(&lits)` of a clause's literals. */
  type Clause = seq<CnfLit>

  const NO_HEADER: string := "No header line starting with 'p'"

  function InvalidLiteral(token: string): string
  {
    "Invalid literal: " + token
  }

  const I32_MIN: int := -0x8000_0000
  const I32_MAX: int := 0x7FFF_FFFF

  // ---------------------------------------------------------------------------
  // Tokens
  // ---------------------------------------------------------------------------

  predicate AllDigits(s: string)
  {
    |s| == 0 || (OpenShop.IsDigit(s[0]) && AllDigits(s[1..]))
  }

  lemma {:induction false} AllDigitsEach(s: string)
    requires AllDigits(s)
    ensures forall i :: 0 <= i < |s| ==> OpenShop.IsDigit(s[i])
  {
    if |s| > 0 {
      AllDigitsEach(s[1..]);
      assert forall i :: 1 <= i < |s| ==> s[i] == s[1..][i - 1];
    }
  }

  /** `i32::from_str`: an optional sign, at least one decimal digit, and a value in range. */
  function ParseI32(w: string): (r: Option<int>)
    ensures r.Some? ==> I32_MIN <= r.value <= I32_MAX
  {
    var ds := if |w| > 0 && (w[0] == '+' || w[0] == '-') then w[1..] else w;
    if |ds| == 0 || !AllDigits(ds) then None
    else
      AllDigitsEach(ds);
      var m: int := OpenShop.DigitsValue(ds);
      var n := if w[0] == '-' then -m else m;
      if I32_MIN <= n <= I32_MAX then Some(n) else None
  }

  /** Decimal rendering of an integer, with a `-` when it is negative. */
  function SignedDecimal(i: int): string
  {
    if i < 0 then "-" + OpenShop.Decimal(-i) else OpenShop.Decimal(i)
  }

  /** Parsing the rendering of an `i32` gives it back. */
  lemma {:induction false} ParseI32Decimal(i: int)
    requires I32_MIN <= i <= I32_MAX
    ensures ParseI32(SignedDecimal(i)) == Some(i)
  {
    var n: nat := if i < 0 then -i else i;
    var s := OpenShop.Decimal(n);
    OpenShop.DecimalValue(n);
    DigitsAll(s);
    if i < 0 {
      assert ("-" + s)[1..] == s;
    }
  }

  lemma {:induction false} DigitsAll(s: string)
    requires forall i :: 0 <= i < |s| ==> OpenShop.IsDigit(s[i])
    ensures AllDigits(s)
  {
    if |s| > 0 {
      DigitsAll(s[1..]);
    }
  }

  /** `i.abs() as u32`: the variable a literal names. */
  function IdOf(i: int): (r: nat)
    ensures r == i || r == -i
    ensures -0x8000_0000 <= i < 0x8000_0000 ==> r < 0x1_0000_0000
  {
    if i < 0 then -i else i
  }

  // ---------------------------------------------------------------------------
  // Specification of the parse, on integers
  // ---------------------------------------------------------------------------

  predicate IsCommentLine(l: string)
  {
    |l| > 0 && l[0] == 'c'
  }

  /** `input.lines().filter(|l| !l.starts_with('c'))`. */
  function NonComment(lines: seq<string>): (r: seq<string>)
    ensures forall l :: l in r <==> l in lines && !IsCommentLine(l)
  {
    if lines == [] then []
    else
      var rest := NonComment(lines[1..]);
      assert forall l :: l in lines <==> l == lines[0] || l in lines[1..];
      if IsCommentLine(lines[0]) then rest else [lines[0]] + rest
  }

  /**
   * The literals of one clause line: the tokens up to the first `0`, the first token that is
   * not an `i32` failing the parse. Tokens after the `0` are not read.
   */
  function LineInts(ws: seq<string>): (r: Result<seq<int>, string>)
    ensures r.Ok? ==> forall i :: i in r.value ==> i != 0 && I32_MIN <= i <= I32_MAX
    ensures r.Ok? ==> |r.value| <= |ws|
  {
    if ws == [] then Ok([])
    else match ParseI32(ws[0])
      case None => Err(InvalidLiteral(ws[0]))
      case Some(i) =>
        if i == 0 then Ok([])
        else match LineInts(ws[1..])
          case Err(e) => Err(e)
          case Ok(rest) => Ok([i] + rest)
  }

  /** The clause lines in order; the first line that fails fails them all. */
  function ClausesInts(ls: seq<string>): (r: Result<seq<seq<int>>, string>)
    ensures r.Ok? ==> |r.value| == |ls|
  {
    if ls == [] then Ok([])
    else match ClausesInts(ls[..|ls| - 1])
      case Err(e) => Err(e)
      case Ok(cs) =>
        match LineInts(OpenShop.Words(ls[|ls| - 1]))
        case Err(e) => Err(e)
        case Ok(c) => Ok(cs + [c])
  }

  predicate HasHeader(ls: seq<string>)
  {
    |ls| > 0 && |ls[0]| > 0 && ls[0][0] == 'p'
  }

  /** The clauses of a CNF text as signed integers, or the error message of `parse`. */
  function ParseInts(input: seq<string>): (r: Result<seq<seq<int>>, string>)
    ensures !HasHeader(NonComment(input)) ==> r == Err(NO_HEADER)
    ensures r.Ok? ==> |r.value| == |NonComment(input)| - 1
  {
    var ls := NonComment(input);
    if !HasHeader(ls) then Err(NO_HEADER) else ClausesInts(ls[1..])
  }

  /** The absolute values occurring in a clause. */
  function IdsOfClause(c: seq<int>): set<nat>
  {
    set i | i in c :: IdOf(i)
  }

  function IdsOf(cs: seq<seq<int>>): set<nat>
  {
    if cs == [] then {} else IdsOf(cs[..|cs| - 1]) + IdsOfClause(cs[|cs| - 1])
  }

  /** The literals of a clause once every id is replaced by its variable. */
  function ClauseOf(c: seq<int>, vars: map<nat, VarRef>): (r: Clause)
    requires IdsOfClause(c) <= vars.Keys
    ensures |r| == |c|
  {
    seq(|c|, j requires 0 <= j < |c| =>
      assert c[j] in c;
      if c[j] > 0 then Pos(vars[IdOf(c[j])]) else Neg(vars[IdOf(c[j])]))
  }

  /**
   * The variables of `vars` are distinct, were created in `[first, next)`, and there is one
   * per id: no id received two variables and no variable was created twice.
   */
  ghost predicate Allocated(vars: map<nat, VarRef>, first: VarRef, next: VarRef)
  {
    && first <= next
    && |vars.Keys| == next - first
    && (forall id :: id in vars ==> first <= vars[id] < next)
    && forall a, b :: a in vars && b in vars && a != b ==> vars[a] != vars[b]
  }

  /** `vars2` keeps every variable of `vars1`. */
  ghost predicate Extends(vars1: map<nat, VarRef>, vars2: map<nat, VarRef>)
  {
    forall id :: id in vars1 ==> id in vars2 && vars2[id] == vars1[id]
  }

  lemma {:induction false} ClauseOfExtends(c: seq<int>, vars1: map<nat, VarRef>, vars2: map<nat, VarRef>)
    requires IdsOfClause(c) <= vars1.Keys && Extends(vars1, vars2)
    ensures IdsOfClause(c) <= vars2.Keys && ClauseOf(c, vars2) == ClauseOf(c, vars1)
  {
    forall j | 0 <= j < |c| ensures ClauseOf(c, vars2)[j] == ClauseOf(c, vars1)[j] {
      assert c[j] in c;
    }
  }

  // ---------------------------------------------------------------------------
  // The parser
  // ---------------------------------------------------------------------------

  /**
   * `parse`: the clauses of the CNF text, each id mapped to a boolean variable of the model.
   * The model is represented by its next fresh variable: `first` before, `next` after.
   */
  method Parse(input: seq<string>, first: VarRef)
    returns (r: Result<seq<Clause>, string>, vars: map<nat, VarRef>, next: VarRef)
    ensures r.Err? <==> ParseInts(input).Err?
    ensures r.Err? ==> r.error == ParseInts(input).error
    ensures r.Ok? ==> var cs := ParseInts(input).value;
      && vars.Keys == IdsOf(cs)
      && |r.value| == |cs|
      && forall j :: 0 <= j < |cs| ==> IdsOfClause(cs[j]) <= vars.Keys && r.value[j] == ClauseOf(cs[j], vars)
    ensures Allocated(vars, first, next)
  {
    hide Allocated, Extends, OpenShop.Words;
    vars, next := map[], first;
    NoneAllocated(first);
    var ls := NonComment(input);
    if !HasHeader(ls) {
      return Err(NO_HEADER), vars, next;
    }
    var body := ls[1..];
    var clauses: seq<Clause> := [];
    ghost var cs: seq<seq<int>> := [];
    for i := 0 to |body|
      invariant ClausesInts(body[..i]) == Ok(cs)
      invariant vars.Keys == IdsOf(cs) && Allocated(vars, first, next)
      invariant |clauses| == |cs|
      invariant forall j :: 0 <= j < |cs| ==> IdsOfClause(cs[j]) <= vars.Keys && clauses[j] == ClauseOf(cs[j], vars)
    {
      var line, vars', next' := ParseLine(OpenShop.Words(body[i]), vars, first, next);
      if line.Err? {
        ClausesFail(body, i);
        return Err(line.error), vars', next';
      }
      ghost var c := LineInts(OpenShop.Words(body[i])).value;
      ClausesStep(body, i, cs, c);
      forall j | 0 <= j < |cs| ensures IdsOfClause(cs[j]) <= vars'.Keys && clauses[j] == ClauseOf(cs[j], vars') {
        ClauseOfExtends(cs[j], vars, vars');
      }
      clauses := clauses + [line.value];
      cs := cs + [c];
      vars, next := vars', next';
    }
    assert body[..|body|] == body;
    r := Ok(clauses);
  }

  lemma {:induction false} IdsOfSnoc(cs: seq<seq<int>>, c: seq<int>)
    ensures IdsOf(cs + [c]) == IdsOf(cs) + IdsOfClause(c)
  {
    assert (cs + [c])[..|cs|] == cs;
  }

  /** A line that parses extends the clauses read so far. */
  lemma {:induction false} ClausesStep(ls: seq<string>, i: nat, cs: seq<seq<int>>, c: seq<int>)
    requires i < |ls| && ClausesInts(ls[..i]) == Ok(cs)
    requires LineInts(OpenShop.Words(ls[i])) == Ok(c)
    ensures ClausesInts(ls[..i + 1]) == Ok(cs + [c])
    ensures IdsOf(cs + [c]) == IdsOf(cs) + IdsOfClause(c)
  {
    assert ls[..i + 1][..i] == ls[..i];
    IdsOfSnoc(cs, c);
  }

  /** The first line that fails decides the error of the whole parse. */
  lemma {:induction false} ClausesFail(ls: seq<string>, i: nat)
    requires i < |ls| && ClausesInts(ls[..i]).Ok?
    requires LineInts(OpenShop.Words(ls[i])).Err?
    ensures ClausesInts(ls) == Err(LineInts(OpenShop.Words(ls[i])).error)
  {
    assert ls[..i + 1][..i] == ls[..i];
    ErrorPersists(ls, i + 1);
  }

  lemma {:induction false} ErrorPersists(ls: seq<string>, k: nat)
    requires k <= |ls| && ClausesInts(ls[..k]).Err?
    ensures ClausesInts(ls) == ClausesInts(ls[..k])
    decreases |ls| - k
  {
    if k < |ls| {
      assert ls[..k + 1][..k] == ls[..k];
      ErrorPersists(ls, k + 1);
    } else {
      assert ls[..k] == ls;
    }
  }

  lemma {:induction false} NoneAllocated(first: VarRef)
    ensures Allocated(map[], first, first)
  {
  }

  lemma {:induction false} ExtendsItself(vars: map<nat, VarRef>)
    ensures Extends(vars, vars)
  {
  }

  lemma {:induction false} ExtendsTransitive(vars1: map<nat, VarRef>, vars2: map<nat, VarRef>, vars3: map<nat, VarRef>)
    requires Extends(vars1, vars2) && Extends(vars2, vars3)
    ensures Extends(vars1, vars3)
  {
  }

  /** Creating the next variable for an id that has none keeps the allocation exact. */
  lemma {:induction false} AllocateFresh(vars: map<nat, VarRef>, first: VarRef, next: VarRef, id: nat)
    requires Allocated(vars, first, next) && id !in vars
    ensures Allocated(vars[id := next], first, next + 1) && Extends(vars, vars[id := next])
    ensures vars[id := next].Keys == vars.Keys + {id}
  {
    var vars' := vars[id := next];
    FreshKeys(vars, id, next, vars');
    FreshValues(vars, first, next, id, vars');
  }

  lemma {:induction false} FreshKeys(vars: map<nat, VarRef>, id: nat, v: VarRef, vars': map<nat, VarRef>)
    requires id !in vars && vars' == vars[id := v]
    ensures vars'.Keys == vars.Keys + {id}
    ensures |vars'.Keys| == |vars.Keys| + 1
  {
  }

  lemma {:induction false} FreshValues(vars: map<nat, VarRef>, first: VarRef, next: VarRef, id: nat, vars': map<nat, VarRef>)
    requires Allocated(vars, first, next) && id !in vars && vars' == vars[id := next]
    ensures forall a :: a in vars' ==> first <= vars'[a] < next + 1
    ensures forall a, b :: a in vars' && b in vars' && a != b ==> vars'[a] != vars'[b]
    ensures Extends(vars, vars')
  {
    forall a, b | a in vars' && b in vars' && a != b ensures vars'[a] != vars'[b] {
      if a != id && b != id {
        assert vars'[a] == vars[a] && vars'[b] == vars[b];
      }
    }
  }

  /** Prefixing the literals already read to the result of reading the rest of the line. */
  function After(read: seq<int>, r: Result<seq<int>, string>): Result<seq<int>, string>
  {
    match r
    case Err(e) => Err(e)
    case Ok(rest) => Ok(read + rest)
  }

  /** The inner loop of `parse`: the literals of one line, creating the variables it names first. */
  method ParseLine(ws: seq<string>, vars: map<nat, VarRef>, ghost first: VarRef, next: VarRef)
    returns (r: Result<Clause, string>, vars': map<nat, VarRef>, next': VarRef)
    requires Allocated(vars, first, next)
    ensures Allocated(vars', first, next') && Extends(vars, vars')
    ensures r.Err? <==> LineInts(ws).Err?
    ensures r.Err? ==> r.error == LineInts(ws).error
    ensures r.Ok? ==> var c := LineInts(ws).value;
      && vars'.Keys == vars.Keys + IdsOfClause(c)
      && r.value == ClauseOf(c, vars')
  {
    hide Allocated, Extends;
    vars', next' := vars, next;
    ExtendsItself(vars);
    var lits: Clause := [];
    ghost var read: seq<int> := [];
    var j := 0;
    LineStart(ws);
    while j < |ws|
      invariant 0 <= j <= |ws|
      invariant LineInts(ws) == After(read, LineInts(ws[j..]))
      invariant Allocated(vars', first, next') && Extends(vars, vars')
      invariant vars'.Keys == vars.Keys + IdsOfClause(read)
      invariant lits == ClauseOf(read, vars')
    {
      match ParseI32(ws[j]) {
        case None =>
          LineFails(ws, j, read);
          return Err(InvalidLiteral(ws[j])), vars', next';
        case Some(i) =>
          if i == 0 {
            LineEnds(ws, j, read);
            break;
          }
          LineContinues(ws, j, read, i);
          var id := IdOf(i);
          ghost var keys := vars'.Keys;
          if id !in vars' {
            AllocateFresh(vars', first, next', id);
            ClauseOfExtends(read, vars', vars'[id := next']);
            ExtendsTransitive(vars, vars', vars'[id := next']);
            vars', next' := vars'[id := next'], next' + 1;
          }
          assert vars'.Keys == keys + {id};
          var v := vars'[id];
          lits := lits + [if i > 0 then Pos(v) else Neg(v)];
          IdsOfClauseSnoc(read, i);
          read := read + [i];
          ClauseOfSnoc(read, vars');
      }
      j := j + 1;
    }
    if j == |ws| {
      LineEnds(ws, j, read);
    }
    r := Ok(lits);
  }

  lemma {:induction false} LineStart(ws: seq<string>)
    ensures LineInts(ws) == After([], LineInts(ws[0..]))
  {
    assert ws[0..] == ws;
    if LineInts(ws).Ok? {
      assert [] + LineInts(ws).value == LineInts(ws).value;
    }
  }

  lemma {:induction false} LineFails(ws: seq<string>, j: nat, read: seq<int>)
    requires j < |ws| && LineInts(ws) == After(read, LineInts(ws[j..])) && ParseI32(ws[j]).None?
    ensures LineInts(ws) == Err(InvalidLiteral(ws[j]))
  {
  }

  lemma {:induction false} LineEnds(ws: seq<string>, j: nat, read: seq<int>)
    requires j <= |ws| && LineInts(ws) == After(read, LineInts(ws[j..]))
    requires j == |ws| || ParseI32(ws[j]) == Some(0)
    ensures LineInts(ws) == Ok(read)
  {
    if j == |ws| {
      assert ws[j..] == [];
    }
    assert read + [] == read;
  }

  lemma {:induction false} LineContinues(ws: seq<string>, j: nat, read: seq<int>, i: int)
    requires j < |ws| && LineInts(ws) == After(read, LineInts(ws[j..]))
    requires ParseI32(ws[j]) == Some(i) && i != 0
    ensures LineInts(ws) == After(read + [i], LineInts(ws[j + 1..]))
  {
    assert ws[j..][1..] == ws[j + 1..];
    if LineInts(ws[j + 1..]).Ok? {
      assert read + ([i] + LineInts(ws[j + 1..]).value) == (read + [i]) + LineInts(ws[j + 1..]).value;
    }
  }

  lemma {:induction false} IdsOfClauseSnoc(c: seq<int>, i: int)
    ensures IdsOfClause(c + [i]) == IdsOfClause(c) + {IdOf(i)}
  {
    assert i in c + [i];
    assert forall k :: k in c + [i] <==> k in c || k == i;
  }

  lemma {:induction false} ClauseOfSnoc(c: seq<int>, vars: map<nat, VarRef>)
    requires c != [] && IdsOfClause(c) <= vars.Keys
    ensures IdsOfClause(c[..|c| - 1]) <= vars.Keys
    ensures ClauseOf(c, vars) == ClauseOf(c[..|c| - 1], vars) + [ClauseOf(c, vars)[|c| - 1]]
  {
    var n := |c| - 1;
    forall i | i in c[..n] ensures IdOf(i) in vars.Keys {
      assert i in c;
    }
    assert ClauseOf(c, vars)[..n] == ClauseOf(c[..n], vars);
  }

  // ---------------------------------------------------------------------------
  // Writing a CNF back, and reading it again
  // ---------------------------------------------------------------------------

  /** A clause the format can express: non-zero `i32` literals. */
  predicate IsClause(c: seq<int>)
  {
    forall i :: 0 <= i < |c| ==> c[i] != 0 && I32_MIN <= c[i] <= I32_MAX
  }

  /** The tokens of a clause line: its literals, then the terminating `0`. */
  function ClauseWords(c: seq<int>): (ws: seq<string>)
    ensures |ws| == |c| + 1
  {
    if c == [] then ["0"] else [SignedDecimal(c[0])] + ClauseWords(c[1..])
  }

  function ClauseText(c: seq<int>): string
  {
    OpenShop.Unwords(ClauseWords(c))
  }

  /** A CNF text: a header line, then one line per clause. */
  function CnfText(header: string, cs: seq<seq<int>>): seq<string>
  {
    [header] + seq(|cs|, j requires 0 <= j < |cs| => ClauseText(cs[j]))
  }

  lemma {:induction false} SignedDecimalWord(i: int)
    ensures OpenShop.IsWord(SignedDecimal(i))
    ensures SignedDecimal(i)[0] == '-' || OpenShop.IsDigit(SignedDecimal(i)[0])
  {
    var d := OpenShop.Decimal(if i < 0 then -i else i);
    if i < 0 {
      assert forall k :: 1 <= k < |"-" + d| ==> ("-" + d)[k] == d[k - 1];
    }
  }

  lemma {:induction false} ClauseWordsParse(c: seq<int>)
    requires IsClause(c)
    ensures LineInts(ClauseWords(c)) == Ok(c)
    ensures forall k :: 0 <= k < |ClauseWords(c)| ==> OpenShop.IsWord(ClauseWords(c)[k])
    ensures ClauseWords(c)[0][0] == '-' || OpenShop.IsDigit(ClauseWords(c)[0][0])
  {
    ParseI32Decimal(0);
    assert SignedDecimal(0) == "0";
    if c != [] {
      ParseI32Decimal(c[0]);
      SignedDecimalWord(c[0]);
      ClauseWordsParse(c[1..]);
      assert ClauseWords(c)[1..] == ClauseWords(c[1..]);
      assert c == [c[0]] + c[1..];
    }
  }

  lemma {:induction false} UnwordsStart(ws: seq<string>)
    requires |ws| > 0 && |ws[0]| > 0
    ensures |OpenShop.Unwords(ws)| > 0 && OpenShop.Unwords(ws)[0] == ws[0][0]
  {
  }

  /** A written clause line reads back as the clause, and is not a comment. */
  lemma {:induction false} ClauseTextParse(c: seq<int>)
    requires IsClause(c)
    ensures LineInts(OpenShop.Words(ClauseText(c))) == Ok(c)
    ensures !IsCommentLine(ClauseText(c))
  {
    ClauseWordsParse(c);
    OpenShop.WordsUnwords(ClauseWords(c));
    UnwordsStart(ClauseWords(c));
  }

  lemma {:induction false} NonCommentKeeps(ls: seq<string>)
    requires forall k :: 0 <= k < |ls| ==> !IsCommentLine(ls[k])
    ensures NonComment(ls) == ls
  {
    if ls != [] {
      NonCommentKeeps(ls[1..]);
    }
  }

  lemma {:induction false} ClauseLinesParse(cs: seq<seq<int>>)
    requires forall j :: 0 <= j < |cs| ==> IsClause(cs[j])
    ensures ClausesInts(CnfText("p", cs)[1..]) == Ok(cs)
  {
    hide OpenShop.Words;
    var ls := CnfText("p", cs)[1..];
    if cs != [] {
      var n := |cs| - 1;
      ClauseLinesParse(cs[..n]);
      assert CnfText("p", cs[..n])[1..] == ls[..n];
      ClauseTextParse(cs[n]);
      assert cs[..n] + [cs[n]] == cs;
    }
  }

  /** Writing clauses under a header starting with `p` and parsing the text gives them back. */
  lemma {:induction false} ParseCnfText(header: string, cs: seq<seq<int>>)
    requires |header| > 0 && header[0] == 'p'
    requires forall j :: 0 <= j < |cs| ==> IsClause(cs[j])
    ensures ParseInts(CnfText(header, cs)) == Ok(cs)
  {
    var text := CnfText(header, cs);
    forall k | 1 <= k < |text| ensures !IsCommentLine(text[k]) {
      ClauseTextParse(cs[k - 1]);
    }
    NonCommentKeeps(text);
    ClauseLinesParse(cs);
    assert text[1..] == CnfText("p", cs)[1..];
  }

  /** The source's example: two comments, a header and four clause lines give four clauses. */
  lemma {:induction false} ParseExample()
    ensures ParseInts(["c This Formular is generated by mcnf", "c", "p cnf 3 4",
                       "-1 0", "-2 0", "1 2 3 0", "1 2 -3 0"])
         == Ok([[-1], [-2], [1, 2, 3], [1, 2, -3]])
  {
    var input := ["c This Formular is generated by mcnf", "c", "p cnf 3 4",
                  "-1 0", "-2 0", "1 2 3 0", "1 2 -3 0"];
    var cs := [[-1], [-2], [1, 2, 3], [1, 2, -3]];
    ExampleText();
    ExampleComments(input, CnfText("p cnf 3 4", cs));
    ExampleAreClauses(cs);
    ParseCnfText("p cnf 3 4", cs);
  }

  /** Dropping the two leading comment lines leaves a text without comments. */
  lemma {:induction false} ExampleComments(input: seq<string>, text: seq<string>)
    requires |input| >= 2 && IsCommentLine(input[0]) && IsCommentLine(input[1])
    requires input[2..] == text && forall k :: 0 <= k < |text| ==> !IsCommentLine(text[k])
    ensures NonComment(input) == NonComment(text)
  {
    assert input[1..][1..] == input[2..];
  }

  lemma {:induction false} ExampleAreClauses(cs: seq<seq<int>>)
    requires cs == [[-1], [-2], [1, 2, 3], [1, 2, -3]]
    ensures forall j :: 0 <= j < |cs| ==> IsClause(cs[j])
  {
    assert IsClause([-1]) && IsClause([-2]);
    assert IsClause([1, 2, 3]) && IsClause([1, 2, -3]);
  }

  lemma {:induction false} ExampleText()
    ensures CnfText("p cnf 3 4", [[-1], [-2], [1, 2, 3], [1, 2, -3]])
         == ["p cnf 3 4", "-1 0", "-2 0", "1 2 3 0", "1 2 -3 0"]
  {
    ExampleClauses();
  }

  lemma {:induction false} ExampleClauses()
    ensures ClauseText([-1]) == "-1 0" && ClauseText([-2]) == "-2 0"
    ensures ClauseText([1, 2, 3]) == "1 2 3 0" && ClauseText([1, 2, -3]) == "1 2 -3 0"
  {
    ExampleWords();
  }

  lemma {:induction false} ExampleWords()
    ensures ClauseWords([-1]) == ["-1", "0"] && ClauseWords([-2]) == ["-2", "0"]
    ensures ClauseWords([1, 2, 3]) == ["1", "2", "3", "0"] && ClauseWords([1, 2, -3]) == ["1", "2", "-3", "0"]
  {
    assert SignedDecimal(1) == "1" && SignedDecimal(2) == "2" && SignedDecimal(3) == "3";
    assert SignedDecimal(-1) == "-1" && SignedDecimal(-2) == "-2" && SignedDecimal(-3) == "-3";
    assert ClauseWords([3]) == ["3", "0"];
    assert ClauseWords([-3]) == ["-3", "0"];
  }
}
