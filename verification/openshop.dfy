/**
 * The open-shop example (examples/scheduling/bin/openshop.rs): the instance, its makespan lower
 * bound, the text parser of instance files and the earliest-start-time search controller.
 */
module OpenShop {
  import opened Wrappers
  import opened Lits

  /** An instance: `times[j * numMachines + op]` is the duration of operation `op` of job `j`. */
  datatype OpenShop = OpenShop(numJobs: nat, numMachines: nat, times: seq<int>)
  {
    /** The duration table covers every (job, operation) pair. */
    predicate Complete() { |times| >= numJobs * numMachines }
  }

  lemma {:induction false} CellInRange(pb: OpenShop, job: nat, op: nat)
    requires pb.Complete() && job < pb.numJobs && op < pb.numMachines
    ensures job * pb.numMachines + op < |pb.times|
  {
    calc {
      job * pb.numMachines + op;
    < job * pb.numMachines + pb.numMachines;
    == (job + 1) * pb.numMachines;
    <= { assert job + 1 <= pb.numJobs; }
      pb.numJobs * pb.numMachines;
    }
  }

  function Duration(pb: OpenShop, job: nat, op: nat): (d: int)
    requires job * pb.numMachines + op < |pb.times|
    ensures d in pb.times
  {
    pb.times[job * pb.numMachines + op]
  }

  /** Sum of the durations of operations `0..n` of a job (a row of the table). */
  function JobSum(pb: OpenShop, job: nat, n: nat): int
    requires pb.Complete() && job < pb.numJobs && n <= pb.numMachines
  {
    if n == 0 then 0
    else
      CellInRange(pb, job, n - 1);
      JobSum(pb, job, n - 1) + Duration(pb, job, n - 1)
  }

  /** Sum of the durations on a machine over jobs `0..n` (a column of the table). */
  function MachineSum(pb: OpenShop, machine: nat, n: nat): int
    requires pb.Complete() && machine < pb.numMachines && n <= pb.numJobs
  {
    if n == 0 then 0
    else
      CellInRange(pb, n - 1, machine);
      MachineSum(pb, machine, n - 1) + Duration(pb, n - 1, machine)
  }

  /** The largest job sum over jobs `0..n`. */
  function MaxJobSum(pb: OpenShop, n: nat): (m: int)
    requires pb.Complete() && 1 <= n <= pb.numJobs
    ensures forall j :: 0 <= j < n ==> JobSum(pb, j, pb.numMachines) <= m
    ensures exists j :: 0 <= j < n && JobSum(pb, j, pb.numMachines) == m
  {
    if n == 1 then JobSum(pb, 0, pb.numMachines)
    else
      var rest := MaxJobSum(pb, n - 1);
      var last := JobSum(pb, n - 1, pb.numMachines);
      if last > rest then last else rest
  }

  /** The largest machine sum over machines `0..n`. */
  function MaxMachineSum(pb: OpenShop, n: nat): (m: int)
    requires pb.Complete() && 1 <= n <= pb.numMachines
    ensures forall k :: 0 <= k < n ==> MachineSum(pb, k, pb.numJobs) <= m
    ensures exists k :: 0 <= k < n && MachineSum(pb, k, pb.numJobs) == m
  {
    if n == 1 then MachineSum(pb, 0, pb.numJobs)
    else
      var rest := MaxMachineSum(pb, n - 1);
      var last := MachineSum(pb, n - 1, pb.numJobs);
      if last > rest then last else rest
  }

  /**
   * Lower bound on the makespan: no schedule ends before all operations of a job, nor before all
   * operations on a machine. The bound is the largest of these sums, and it is reached by one of them.
   */
  function MakespanLowerBound(pb: OpenShop): (lb: int)
    requires pb.Complete() && pb.numJobs >= 1 && pb.numMachines >= 1
    ensures forall j :: 0 <= j < pb.numJobs ==> JobSum(pb, j, pb.numMachines) <= lb
    ensures forall k :: 0 <= k < pb.numMachines ==> MachineSum(pb, k, pb.numJobs) <= lb
    ensures (exists j :: 0 <= j < pb.numJobs && JobSum(pb, j, pb.numMachines) == lb)
         || (exists k :: 0 <= k < pb.numMachines && MachineSum(pb, k, pb.numJobs) == lb)
  {
    var byJobs := MaxJobSum(pb, pb.numJobs);
    var byMachines := MaxMachineSum(pb, pb.numMachines);
    if byJobs >= byMachines then
      assert exists j :: 0 <= j < pb.numJobs && JobSum(pb, j, pb.numMachines) == byJobs;
      byJobs
    else
      assert exists k :: 0 <= k < pb.numMachines && MachineSum(pb, k, pb.numJobs) == byMachines;
      byMachines
  }

  /** With non-negative durations, the bound is at least every single duration. */
  lemma {:induction false} LowerBoundCoversDurations(pb: OpenShop, job: nat, op: nat)
    requires pb.Complete() && pb.numJobs >= 1 && pb.numMachines >= 1
    requires forall i :: 0 <= i < |pb.times| ==> pb.times[i] >= 0
    requires job < pb.numJobs && op < pb.numMachines
    ensures job * pb.numMachines + op < |pb.times|
    ensures Duration(pb, job, op) <= MakespanLowerBound(pb)
  {
    CellInRange(pb, job, op);
    JobSumCovers(pb, job, op, pb.numMachines);
  }

  lemma {:induction false} JobSumCovers(pb: OpenShop, job: nat, op: nat, n: nat)
    requires pb.Complete() && job < pb.numJobs && op < n <= pb.numMachines
    requires forall i :: 0 <= i < |pb.times| ==> pb.times[i] >= 0
    ensures job * pb.numMachines + op < |pb.times|
    ensures Duration(pb, job, op) <= JobSum(pb, job, n)
  {
    CellInRange(pb, job, op);
    CellInRange(pb, job, n - 1);
    if op < n - 1 {
      JobSumCovers(pb, job, op, n - 1);
      JobSumNonNegative(pb, job, n - 1);
    } else {
      JobSumNonNegative(pb, job, n - 1);
    }
  }

  lemma {:induction false} JobSumNonNegative(pb: OpenShop, job: nat, n: nat)
    requires pb.Complete() && job < pb.numJobs && n <= pb.numMachines
    requires forall i :: 0 <= i < |pb.times| ==> pb.times[i] >= 0
    ensures JobSum(pb, job, n) >= 0
  {
    if n > 0 {
      CellInRange(pb, job, n - 1);
      JobSumNonNegative(pb, job, n - 1);
    }
  }

  // ---------------------------------------------------------------- text parsing

  /** A line is a comment when it contains `#`. */
  predicate IsComment(line: string)
  {
    '#' in line
  }

  /** The non-comment lines of the input, in order. */
  function Lines(input: seq<string>): (r: seq<string>)
    ensures |r| <= |input|
    ensures forall l :: l in r ==> l in input && !IsComment(l)
    ensures forall l :: l in input && !IsComment(l) ==> l in r
  {
    if |input| == 0 then []
    else if IsComment(input[0]) then Lines(input[1..])
    else [input[0]] + Lines(input[1..])
  }

  /** Lines dropped by `Lines` do not change it: comments may be inserted anywhere. */
  lemma {:induction false} LinesSkipsComments(a: seq<string>, b: seq<string>, c: string)
    requires IsComment(c)
    ensures Lines(a + [c] + b) == Lines(a + b)
  {
    if |a| == 0 {
      assert a + [c] + b == [c] + b && a + b == b;
      assert ([c] + b)[0] == c && ([c] + b)[1..] == b;
    } else {
      assert (a + [c] + b)[0] == a[0] && (a + [c] + b)[1..] == a[1..] + [c] + b;
      assert (a + b)[0] == a[0] && (a + b)[1..] == a[1..] + b;
      LinesSkipsComments(a[1..], b, c);
    }
  }

  /**
   * The separators of `split_whitespace`: the characters with the Unicode `White_Space` property,
   * as `char::is_whitespace` reads them.
   */
  predicate IsWhitespace(c: char)
  {
    || '\U{9}' <= c <= '\U{D}' || c == ' ' || c == '\U{85}' || c == '\U{A0}' || c == '\U{1680}'
    || '\U{2000}' <= c <= '\U{200A}' || c == '\U{2028}' || c == '\U{2029}' || c == '\U{202F}'
    || c == '\U{205F}' || c == '\U{3000}'
  }

  predicate IsWord(w: string)
  {
    |w| > 0 && forall i :: 0 <= i < |w| ==> !IsWhitespace(w[i])
  }

  /** Length of the word at the start of `s`. */
  function WordLen(s: string): (k: nat)
    ensures k <= |s|
    ensures forall i :: 0 <= i < k ==> !IsWhitespace(s[i])
    ensures k < |s| ==> IsWhitespace(s[k])
  {
    if |s| == 0 || IsWhitespace(s[0]) then 0 else 1 + WordLen(s[1..])
  }

  /** `split_whitespace`: the maximal runs of non-whitespace characters. */
  function Words(s: string): (ws: seq<string>)
    ensures forall i :: 0 <= i < |ws| ==> IsWord(ws[i])
    decreases |s|
  {
    if |s| == 0 then []
    else if IsWhitespace(s[0]) then Words(s[1..])
    else
      var k := WordLen(s);
      [s[..k]] + Words(s[k..])
  }

  /** Words joined by single spaces. */
  function Unwords(ws: seq<string>): string
  {
    if |ws| == 0 then []
    else if |ws| == 1 then ws[0]
    else ws[0] + " " + Unwords(ws[1..])
  }

  lemma {:induction false} WordLenOfWord(w: string, rest: string)
    requires IsWord(w)
    requires |rest| == 0 || IsWhitespace(rest[0])
    ensures WordLen(w + rest) == |w|
    decreases |w|
  {
    if |w| > 1 {
      assert (w + rest)[1..] == w[1..] + rest;
      WordLenOfWord(w[1..], rest);
    } else {
      assert (w + rest)[1..] == rest;
    }
  }

  /** Splitting words joined by spaces gives back the words. */
  lemma {:induction false} WordsUnwords(ws: seq<string>)
    requires forall i :: 0 <= i < |ws| ==> IsWord(ws[i])
    ensures Words(Unwords(ws)) == ws
  {
    if |ws| == 1 {
      var s := ws[0];
      WordLenOfWord(s, []);
      assert s + [] == s;
      assert s[|s|..] == [];
    } else if |ws| > 1 {
      assert Unwords(ws) == ws[0] + (" " + Unwords(ws[1..]));
      WordsCons(ws[0], Unwords(ws[1..]));
      WordsUnwords(ws[1..]);
      assert ws == [ws[0]] + ws[1..];
    }
  }

  /** A word followed by a space and more text splits into the word and the words of the text. */
  lemma {:induction false} WordsCons(w: string, t: string)
    requires IsWord(w)
    ensures Words(w + (" " + t)) == [w] + Words(t)
  {
    var rest := " " + t;
    var s := w + rest;
    WordLenOfWord(w, rest);
    assert s[0] == w[0] && !IsWhitespace(s[0]);
    assert s[..|w|] == w && s[|w|..] == rest;
    assert rest[0] == ' ' && rest[1..] == t;
  }

  const USIZE_LIMIT: int := 0x1_0000_0000_0000_0000

  predicate IsDigit(c: char) { '0' <= c <= '9' }

  function DigitValue(c: char): nat
    requires IsDigit(c)
  {
    (c as int) - ('0' as int)
  }

  function DigitsValue(ds: string): nat
    requires forall i :: 0 <= i < |ds| ==> IsDigit(ds[i])
  {
    if |ds| == 0 then 0 else 10 * DigitsValue(ds[..|ds| - 1]) + DigitValue(ds[|ds| - 1])
  }

  /** `usize::from_str`: an optional `+`, at least one decimal digit, and no overflow. */
  function ParseUsize(w: string): (r: Option<nat>)
    ensures r.Some? ==> r.value < USIZE_LIMIT
  {
    var ds := if |w| > 0 && w[0] == '+' then w[1..] else w;
    if |ds| == 0 || exists i :: 0 <= i < |ds| && !IsDigit(ds[i]) then None
    else if DigitsValue(ds) < USIZE_LIMIT then Some(DigitsValue(ds))
    else None
  }

  function DigitChar(d: nat): (c: char)
    requires d < 10
    ensures IsDigit(c) && DigitValue(c) == d
  {
    (d + '0' as int) as char
  }

  /** Decimal rendering of a natural number. */
  function Decimal(n: nat): (s: string)
    ensures |s| > 0 && s[0] != '+'
    ensures forall i :: 0 <= i < |s| ==> IsDigit(s[i])
  {
    if n < 10 then [DigitChar(n)] else Decimal(n / 10) + [DigitChar(n % 10)]
  }

  lemma {:induction false} DecimalValue(n: nat)
    ensures DigitsValue(Decimal(n)) == n
  {
    if n >= 10 {
      var s := Decimal(n);
      assert s[..|s| - 1] == Decimal(n / 10);
      DecimalValue(n / 10);
    }
  }

  /** Parsing the decimal rendering of a `usize` gives it back. */
  lemma {:induction false} ParseUsizeDecimal(n: nat)
    requires n < USIZE_LIMIT
    ensures ParseUsize(Decimal(n)) == Some(n)
  {
    DecimalValue(n);
  }

  datatype ParseError = MissingLine | MissingInt | InvalidInt(token: string)

  /** All integers of a line, failing on the first token that is not a `usize`. */
  function IntsOf(ws: seq<string>): (r: Result<seq<nat>, ParseError>)
    ensures r.Ok? ==> |r.value| == |ws|
    ensures r.Ok? <==> forall i :: 0 <= i < |ws| ==> ParseUsize(ws[i]).Some?
    ensures r.Ok? ==> forall i :: 0 <= i < |ws| ==> r.value[i] == ParseUsize(ws[i]).value
  {
    if |ws| == 0 then Ok([])
    else match ParseUsize(ws[0])
      case None => Err(InvalidInt(ws[0]))
      case Some(n) =>
        match IntsOf(ws[1..])
        case Err(e) => Err(e)
        case Ok(rest) =>
          assert forall i :: 1 <= i < |ws| ==> ws[i] == ws[1..][i - 1];
          Ok([n] + rest)
  }

  /**
   * The two leading integers of the header line. The integers are parsed lazily: tokens after the
   * second one are never read.
   */
  function Header(line: string): (r: Result<(nat, nat), ParseError>)
    ensures r.Ok? <==> |Words(line)| >= 2 && ParseUsize(Words(line)[0]).Some? && ParseUsize(Words(line)[1]).Some?
    ensures r.Ok? ==> r.value == (ParseUsize(Words(line)[0]).value, ParseUsize(Words(line)[1]).value)
  {
    var ws := Words(line);
    if |ws| == 0 then Err(MissingInt)
    else if ParseUsize(ws[0]).None? then Err(InvalidInt(ws[0]))
    else if |ws| == 1 then Err(MissingInt)
    else if ParseUsize(ws[1]).None? then Err(InvalidInt(ws[1]))
    else Ok((ParseUsize(ws[0]).value, ParseUsize(ws[1]).value))
  }

  /** `t as i32`: the low 32 bits, read as a two's-complement number. */
  function AsI32(t: nat): (r: int)
    ensures -0x8000_0000 <= r < 0x8000_0000
    ensures t < 0x8000_0000 ==> r == t
  {
    var low := t % 0x1_0000_0000;
    if low < 0x8000_0000 then low else low - 0x1_0000_0000
  }

  function AsI32s(ns: seq<nat>): (r: seq<int>)
    ensures |r| == |ns| && forall i :: 0 <= i < |ns| ==> r[i] == AsI32(ns[i])
  {
    if |ns| == 0 then [] else [AsI32(ns[0])] + AsI32s(ns[1..])
  }

  /** The durations read from `count` lines starting at `pos`, each line's integers in order. */
  function Rows(ls: seq<string>, pos: nat, count: nat): (r: Result<seq<int>, ParseError>)
    decreases count
  {
    if count == 0 then Ok([])
    else if pos >= |ls| then Err(MissingLine)
    else match IntsOf(Words(ls[pos]))
      case Err(e) => Err(e)
      case Ok(row) =>
        match Rows(ls, pos + 1, count - 1)
        case Err(e) => Err(e)
        case Ok(rest) => Ok(AsI32s(row) + rest)
  }

  /**
   * An instance file: a first line that is skipped, a header `num_jobs num_machines`, then one line
   * of durations per job. Comment lines are ignored everywhere.
   */
  function ParseSpec(input: seq<string>): (r: Result<OpenShop, ParseError>)
    ensures r.Ok? ==> |Lines(input)| >= 2 + r.value.numJobs
  {
    var ls := Lines(input);
    if |ls| < 2 then Err(MissingLine)
    else match Header(ls[1])
      case Err(e) => Err(e)
      case Ok(h) =>
        match Rows(ls, 2, h.0)
        case Err(e) => Err(e)
        case Ok(times) =>
          RowsNeedLines(ls, 2, h.0);
          Ok(OpenShop(h.0, h.1, times))
  }

  lemma {:induction false} RowsNeedLines(ls: seq<string>, pos: nat, count: nat)
    requires Rows(ls, pos, count).Ok?
    ensures pos + count <= |ls| || count == 0
    decreases count
  {
    if count > 0 {
      if IntsOf(Words(ls[pos])).Ok? {
        RowsNeedLines(ls, pos + 1, count - 1);
      }
    }
  }

  /** `parse`: reads the instance line by line, pushing the durations of each job line in order. */
  method Parse(input: seq<string>) returns (r: Result<OpenShop, ParseError>)
    ensures r == ParseSpec(input)
  {
    var ls := Lines(input);
    var pos := 0;
    if pos < |ls| {
      pos := pos + 1;
    }
    if pos >= |ls| {
      return Err(MissingLine);
    }
    var header := Header(ls[pos]);
    pos := pos + 1;
    if header.Err? {
      return Err(header.error);
    }
    var numJobs, numMachines := header.value.0, header.value.1;
    var times: seq<int> := [];
    var j := 0;
    assert Prefixed([], Rows(ls, 2, numJobs)) == Rows(ls, 2, numJobs) by {
      if Rows(ls, 2, numJobs).Ok? {
        assert [] + Rows(ls, 2, numJobs).value == Rows(ls, 2, numJobs).value;
      }
    }
    while j < numJobs
      invariant 0 <= j <= numJobs && pos == 2 + j
      invariant Rows(ls, 2, numJobs) == Prefixed(times, Rows(ls, pos, numJobs - j))
    {
      if pos >= |ls| {
        return Err(MissingLine);
      }
      var row := IntsOf(Words(ls[pos]));
      if row.Err? {
        return Err(row.error);
      }
      ghost var before := times;
      times := PushRow(times, row.value);
      PrefixedAssoc(before, AsI32s(row.value), Rows(ls, pos + 1, numJobs - j - 1));
      pos := pos + 1;
      j := j + 1;
    }
    r := Ok(OpenShop(numJobs, numMachines, times));
    assert times + [] == times;
    assert Rows(ls, 2, numJobs) == Ok(times);
  }

  /** Pushes the durations of one line, converted to `i32`, in order. */
  method PushRow(times: seq<int>, row: seq<nat>) returns (r: seq<int>)
    ensures r == times + AsI32s(row)
  {
    r := times;
    var k := 0;
    while k < |row|
      invariant 0 <= k <= |row|
      invariant r == times + AsI32s(row[..k])
    {
      assert row[..k + 1] == row[..k] + [row[k]];
      AsI32sAppend(row[..k], row[k]);
      r := r + [AsI32(row[k])];
      k := k + 1;
    }
    assert row[..k] == row;
  }

  function Prefixed(times: seq<int>, r: Result<seq<int>, ParseError>): Result<seq<int>, ParseError>
  {
    match r
    case Err(e) => Err(e)
    case Ok(rest) => Ok(times + rest)
  }

  lemma {:induction false} PrefixedAssoc(a: seq<int>, b: seq<int>, r: Result<seq<int>, ParseError>)
    ensures Prefixed(a, Prefixed(b, r)) == Prefixed(a + b, r)
  {
    if r.Ok? {
      assert a + (b + r.value) == (a + b) + r.value;
    }
  }

  lemma {:induction false} AsI32sAppend(ns: seq<nat>, n: nat)
    ensures AsI32s(ns + [n]) == AsI32s(ns) + [AsI32(n)]
  {
  }

  /** The text of an instance: a title line, the header, then one line of durations per job. */
  function RowText(row: seq<nat>): string
  {
    Unwords(DecimalWords(row))
  }

  function DecimalWords(row: seq<nat>): (ws: seq<string>)
    ensures |ws| == |row| && forall i :: 0 <= i < |row| ==> ws[i] == Decimal(row[i])
  {
    if |row| == 0 then [] else [Decimal(row[0])] + DecimalWords(row[1..])
  }

  function RenderRows(rows: seq<seq<nat>>): seq<string>
    ensures |RenderRows(rows)| == |rows|
  {
    if |rows| == 0 then [] else [RowText(rows[0])] + RenderRows(rows[1..])
  }

  function Flatten(rows: seq<seq<nat>>): seq<nat>
  {
    if |rows| == 0 then [] else rows[0] + Flatten(rows[1..])
  }

  function Render(numMachines: nat, rows: seq<seq<nat>>): seq<string>
  {
    ["Times", RowText([|rows|, numMachines])] + RenderRows(rows)
  }

  /** Decimal renderings are words that contain no `#`, so no rendered line is a comment. */
  lemma {:induction false} RowTextNotComment(row: seq<nat>)
    ensures !IsComment(RowText(row))
    ensures forall i :: 0 <= i < |DecimalWords(row)| ==> IsWord(DecimalWords(row)[i])
  {
    var ws := DecimalWords(row);
    UnwordsChars(ws);
  }

  lemma {:induction false} UnwordsChars(ws: seq<string>)
    requires forall i :: 0 <= i < |ws| ==> forall k :: 0 <= k < |ws[i]| ==> IsDigit(ws[i][k])
    ensures forall c :: c in Unwords(ws) ==> IsDigit(c) || c == ' '
  {
    if |ws| > 1 {
      UnwordsChars(ws[1..]);
      forall c | c in Unwords(ws) ensures IsDigit(c) || c == ' ' {
        assert Unwords(ws) == ws[0] + " " + Unwords(ws[1..]);
        if c in ws[0] {
          var k :| 0 <= k < |ws[0]| && ws[0][k] == c;
        }
      }
    } else if |ws| == 1 {
      forall c | c in Unwords(ws) ensures IsDigit(c) || c == ' ' {
        var k :| 0 <= k < |ws[0]| && ws[0][k] == c;
      }
    }
  }

  lemma {:induction false} LinesOfRendered(rows: seq<seq<nat>>)
    ensures Lines(RenderRows(rows)) == RenderRows(rows)
  {
    if |rows| > 0 {
      RowTextNotComment(rows[0]);
      assert RenderRows(rows)[1..] == RenderRows(rows[1..]);
      LinesOfRendered(rows[1..]);
    }
  }

  lemma {:induction false} IntsOfDecimals(row: seq<nat>)
    requires forall i :: 0 <= i < |row| ==> row[i] < USIZE_LIMIT
    ensures IntsOf(Words(RowText(row))) == Ok(row)
  {
    RowTextNotComment(row);
    WordsUnwords(DecimalWords(row));
    forall i | 0 <= i < |row| ensures ParseUsize(DecimalWords(row)[i]) == Some(row[i]) {
      ParseUsizeDecimal(row[i]);
    }
    var r := IntsOf(DecimalWords(row));
    assert r.Ok?;
    assert r.value == row;
  }

  lemma {:induction false} RowsOfRendered(rows: seq<seq<nat>>, prefix: seq<string>)
    requires forall j, i :: 0 <= j < |rows| && 0 <= i < |rows[j]| ==> rows[j][i] < 0x8000_0000
    ensures Rows(prefix + RenderRows(rows), |prefix|, |rows|) == Ok(AsI32s(Flatten(rows)))
  {
    if |rows| > 0 {
      var ls := prefix + RenderRows(rows);
      assert ls[|prefix|] == RowText(rows[0]);
      IntsOfDecimals(rows[0]);
      assert ls == (prefix + [RowText(rows[0])]) + RenderRows(rows[1..]);
      RowsOfRendered(rows[1..], prefix + [RowText(rows[0])]);
      AsI32sConcat(rows[0], Flatten(rows[1..]));
    }
  }

  lemma {:induction false} AsI32sConcat(a: seq<nat>, b: seq<nat>)
    ensures AsI32s(a + b) == AsI32s(a) + AsI32s(b)
  {
    assert forall i :: 0 <= i < |a + b| ==> AsI32s(a + b)[i] == (AsI32s(a) + AsI32s(b))[i];
  }

  lemma {:induction false} AsI32sSmall(ns: seq<nat>)
    requires forall i :: 0 <= i < |ns| ==> ns[i] < 0x8000_0000
    ensures AsI32s(ns) == ns
  {
  }

  lemma {:induction false} FlattenBound(rows: seq<seq<nat>>)
    requires forall j, i :: 0 <= j < |rows| && 0 <= i < |rows[j]| ==> rows[j][i] < 0x8000_0000
    ensures forall i :: 0 <= i < |Flatten(rows)| ==> Flatten(rows)[i] < 0x8000_0000
  {
    if |rows| > 0 {
      FlattenBound(rows[1..]);
    }
  }

  /**
   * Parsing the rendering of a table of durations gives back the instance whose `times` are the
   * rows laid end to end.
   */
  lemma {:induction false} ParseRender(numMachines: nat, rows: seq<seq<nat>>)
    requires |rows| < 0x8000_0000 && numMachines < 0x8000_0000
    requires forall j, i :: 0 <= j < |rows| && 0 <= i < |rows[j]| ==> rows[j][i] < 0x8000_0000
    ensures ParseSpec(Render(numMachines, rows)) == Ok(OpenShop(|rows|, numMachines, Flatten(rows)))
  {
    var input := Render(numMachines, rows);
    var header := RowText([|rows|, numMachines]);
    LinesOfRender(numMachines, rows);
    HeaderOfRendered(|rows|, numMachines);
    RowsOfRendered(rows, ["Times", header]);
    FlattenBound(rows);
    AsI32sSmall(Flatten(rows));
  }

  lemma {:induction false} LinesOfRender(numMachines: nat, rows: seq<seq<nat>>)
    ensures Lines(Render(numMachines, rows)) == Render(numMachines, rows)
  {
    hide RowText, RenderRows;
    var header := RowText([|rows|, numMachines]);
    var rest := RenderRows(rows);
    var input := Render(numMachines, rows);
    assert input == ["Times", header] + rest;
    RowTextNotComment([|rows|, numMachines]);
    LinesOfRendered(rows);
    assert !IsComment(input[0]) && input[1..] == [header] + rest;
    assert ([header] + rest)[0] == header && ([header] + rest)[1..] == rest;
    calc {
      Lines(input);
      [input[0]] + Lines(input[1..]);
      [input[0]] + ([header] + Lines(rest));
      input;
    }
  }

  lemma {:induction false} HeaderOfRendered(numJobs: nat, numMachines: nat)
    requires numJobs < USIZE_LIMIT && numMachines < USIZE_LIMIT
    ensures Header(RowText([numJobs, numMachines])) == Ok((numJobs, numMachines))
  {
    IntsOfDecimals([numJobs, numMachines]);
    WordsUnwords(DecimalWords([numJobs, numMachines]));
    ParseUsizeDecimal(numJobs);
    ParseUsizeDecimal(numMachines);
  }

  // ---------------------------------------------------------------- search

  /** The first operation of a job whose start time is not fixed: its variable and start bounds. */
  function ActiveFrom(pb: OpenShop, job: nat, op: nat, startVar: (nat, nat) -> VarRef,
                      domain: VarRef -> (int, int)): (r: Option<(VarRef, int, int)>)
    requires op <= pb.numMachines
    ensures r.None? <==> forall t :: op <= t < pb.numMachines ==> domain(startVar(job, t)).0 >= domain(startVar(job, t)).1
    ensures r.Some? ==> exists t ::
      && op <= t < pb.numMachines
      && r.value == (startVar(job, t), domain(startVar(job, t)).0, domain(startVar(job, t)).1)
      && r.value.1 < r.value.2
      && (forall u :: op <= u < t ==> domain(startVar(job, u)).0 >= domain(startVar(job, u)).1)
    decreases pb.numMachines - op
  {
    if op == pb.numMachines then None
    else
      var v := startVar(job, op);
      if domain(v).0 < domain(v).1 then Some((v, domain(v).0, domain(v).1))
      else ActiveFrom(pb, job, op + 1, startVar, domain)
  }

  /** Order on `(est, lst)` keys, lexicographic. */
  predicate KeyLe(a: (VarRef, int, int), b: (VarRef, int, int))
  {
    a.1 < b.1 || (a.1 == b.1 && a.2 <= b.2)
  }

  function ActiveInJob(pb: OpenShop, job: nat, startVar: (nat, nat) -> VarRef,
                       domain: VarRef -> (int, int)): Option<(VarRef, int, int)>
  {
    ActiveFrom(pb, job, 0, startVar, domain)
  }

  /** A candidate task `(variable, est, lst)` for each job, as returned by `ActiveInJob`. */
  type Candidates = nat -> Option<(VarRef, int, int)>

  /**
   * Job `b` holds the task `min_by_key` picks among jobs `job..n`: an active task whose key is at
   * most every other active task's key, and strictly below those of the jobs before it.
   */
  predicate FirstMinimal(tasks: Candidates, job: nat, n: nat, b: nat)
  {
    && job <= b < n
    && tasks(b).Some?
    && (forall j :: job <= j < n && tasks(j).Some? ==> KeyLe(tasks(b).value, tasks(j).value))
    && (forall j :: job <= j < b && tasks(j).Some? ==> !KeyLe(tasks(j).value, tasks(b).value))
  }

  /** Among jobs `job..n`, the candidate with the smallest key, the first one on ties. */
  function BestFrom(tasks: Candidates, job: nat, n: nat): (r: Option<(VarRef, int, int)>)
    requires job <= n
    ensures r.None? <==> forall j :: job <= j < n ==> tasks(j).None?
    decreases n - job
  {
    if job == n then None
    else
      var cur := tasks(job);
      var rest := BestFrom(tasks, job + 1, n);
      if cur.None? then rest
      else if rest.None? then cur
      else if KeyLe(cur.value, rest.value) then cur
      else rest
  }

  /** `BestFrom` selects exactly the task `min_by_key` returns. */
  lemma {:induction false} BestFromFirstMinimal(tasks: Candidates, job: nat, n: nat)
    requires job <= n
    ensures BestFrom(tasks, job, n).Some? ==> exists b ::
      FirstMinimal(tasks, job, n, b) && tasks(b) == BestFrom(tasks, job, n)
    decreases n - job
  {
    if job < n {
      var cur := tasks(job);
      var rest := BestFrom(tasks, job + 1, n);
      BestFromFirstMinimal(tasks, job + 1, n);
      if cur.Some? && (rest.None? || KeyLe(cur.value, rest.value)) {
        FirstMinimalHere(tasks, job, n, rest);
      } else if rest.Some? {
        var b :| FirstMinimal(tasks, job + 1, n, b) && tasks(b) == rest;
        FirstMinimalLater(tasks, job, n, b);
      }
    }
  }

  lemma {:induction false} FirstMinimalHere(tasks: Candidates, job: nat, n: nat, rest: Option<(VarRef, int, int)>)
    requires job < n && tasks(job).Some?
    requires rest.None? <==> forall j :: job + 1 <= j < n ==> tasks(j).None?
    requires rest.Some? ==> exists b :: FirstMinimal(tasks, job + 1, n, b) && tasks(b) == rest
    requires rest.None? || KeyLe(tasks(job).value, rest.value)
    ensures FirstMinimal(tasks, job, n, job)
  {
    forall j | job <= j < n && tasks(j).Some? ensures KeyLe(tasks(job).value, tasks(j).value) {
      if j > job {
        var b :| FirstMinimal(tasks, job + 1, n, b) && tasks(b) == rest;
        assert KeyLe(rest.value, tasks(j).value);
      }
    }
  }

  lemma {:induction false} FirstMinimalLater(tasks: Candidates, job: nat, n: nat, b: nat)
    requires job < n && FirstMinimal(tasks, job + 1, n, b)
    requires tasks(job).Some? ==> !KeyLe(tasks(job).value, tasks(b).value)
    ensures FirstMinimal(tasks, job, n, b)
  {
  }

  /** The candidate of every job. */
  function JobCandidates(pb: OpenShop, startVar: (nat, nat) -> VarRef, domain: VarRef -> (int, int)): Candidates
  {
    (j: nat) => ActiveInJob(pb, j, startVar, domain)
  }

  /**
   * `EstBrancher.next_decision`: start the selected task as early as possible; there is no
   * decision left once every job's start times are fixed.
   */
  function NextEstDecision(pb: OpenShop, startVar: (nat, nat) -> VarRef, domain: VarRef -> (int, int)): (r: Option<Lit>)
    ensures r.None? <==> forall j :: 0 <= j < pb.numJobs ==> ActiveInJob(pb, j, startVar, domain).None?
  {
    var tasks := JobCandidates(pb, startVar, domain);
    assert forall j: nat :: tasks(j) == ActiveInJob(pb, j, startVar, domain);
    var best := BestFrom(tasks, 0, pb.numJobs);
    if best.None? then None else Some(LeqLit(Plus(best.value.0), best.value.1))
  }

  /**
   * The decision is `start <= est` for the task of the job `min_by_key` picks; there is none exactly
   * when every start time is fixed.
   */
  lemma {:induction false} NextEstDecisionChoice(pb: OpenShop, startVar: (nat, nat) -> VarRef, domain: VarRef -> (int, int))
    ensures NextEstDecision(pb, startVar, domain).None? <==>
      forall j, t :: 0 <= j < pb.numJobs && 0 <= t < pb.numMachines ==> domain(startVar(j, t)).0 >= domain(startVar(j, t)).1
    ensures NextEstDecision(pb, startVar, domain).Some? ==> exists b ::
      && FirstMinimal(JobCandidates(pb, startVar, domain), 0, pb.numJobs, b)
      && var task := ActiveInJob(pb, b, startVar, domain).value;
         NextEstDecision(pb, startVar, domain).value == LeqLit(Plus(task.0), task.1) && task.1 < task.2
  {
    var tasks := JobCandidates(pb, startVar, domain);
    var r := NextEstDecision(pb, startVar, domain);
    if r.None? {
      forall j, t | 0 <= j < pb.numJobs && 0 <= t < pb.numMachines
        ensures domain(startVar(j, t)).0 >= domain(startVar(j, t)).1 {
        assert ActiveInJob(pb, j, startVar, domain).None?;
      }
    } else {
      BestFromFirstMinimal(tasks, 0, pb.numJobs);
      var b :| FirstMinimal(tasks, 0, pb.numJobs, b) && tasks(b) == BestFrom(tasks, 0, pb.numJobs);
      var t :| 0 <= t < pb.numMachines && ActiveInJob(pb, b, startVar, domain).value ==
        (startVar(b, t), domain(startVar(b, t)).0, domain(startVar(b, t)).1);
      assert !(domain(startVar(b, t)).0 >= domain(startVar(b, t)).1);
    }
  }

  /** Backtracking state of the earliest-start-time brancher: the number of saved levels. */
  class EstBrancher {
    const pb: OpenShop
    var saved: nat

    constructor (pb: OpenShop)
      ensures this.pb == pb && saved == 0
    {
      this.pb := pb;
      saved := 0;
    }

    method SaveState() returns (lvl: nat)
      modifies this
      ensures saved == old(saved) + 1 && lvl == saved
      ensures lvl == NumSaved() == old(NumSaved()) + 1
    {
      saved := saved + 1;
      lvl := saved;
    }

    /** `num_saved`: the number of save points not yet restored, the level of the newest one. */
    function NumSaved(): (n: nat)
      reads this
      ensures n == saved
    {
      saved
    }

    method RestoreLast()
      requires saved > 0
      modifies this
      ensures saved == old(saved) - 1
      ensures NumSaved() == old(NumSaved()) - 1
    {
      saved := saved - 1;
    }
  }
}
