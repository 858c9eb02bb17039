/**
 * The expression interpreter of the simulator (src/CodeExecutor.cpp): values tagged
 * bool, int or string, the evaluation of guards and of built-in calls, and the
 * execution of a state's entry expression.
 *
 * `evaluateExpr` writes into the machine's current output through `output(...)`; here
 * an evaluation returns that effect as the list of writes it performs, in order, and
 * the machine applies them (`ApplyWrites`). What `std::stoi` throws and the paths on
 * which the source reads an uninitialised variable or never stops are a `Failure`.
 */
module CodeExecutor {
  import opened Wrappers
  import opened Text
  import opened TransitionSyntax

  /** `ExprValue = std::variant<bool, int, std::string>` (CodeExecutor.h:21). */
  datatype ExprValue = BoolValue(b: bool) | IntValue(i: int) | StringValue(s: string)

  /** `std::variant::index()`: the position of the alternative in the variant's type list. */
  function Tag(v: ExprValue): nat {
    match v
    case BoolValue(_) => 0
    case IntValue(_) => 1
    case StringValue(_) => 2
  }

  /** The ways evaluation goes wrong in the source. */
  datatype Error =
    | InvalidArgument        // `std::stoi` of the empty text
    | OutOfRange             // `std::stoi` of a number above `INT_MAX`
    | UninitialisedOperator  // `evaluateCond` with no operator and a non-bool value
    | NonTerminating         // `executeStateExpr` on an `if{` whose body never closes

  /** One `setCurrentOutput(name, value)` call made through `output(...)`. */
  datatype Write = Write(name: string, value: string)

  /** A value together with the writes made while computing it. */
  datatype Evaluation = Evaluation(value: ExprValue, writes: seq<Write>)

  /** The outcome of a condition together with the writes made while evaluating it. */
  datatype Outcome = Outcome(holds: bool, writes: seq<Write>)

  /**
   * What a `CodeExecutor` sees (CodeExecutor.h:29-42): the inputs declared in the machine
   * (read through `getInputs`), the guard text, and the selected input with its value.
   */
  datatype Executor = Executor(
    inputs: seq<string>, transitionExpr: string, inputName: string, inputValue: string)

  /** The comparison operators, in the order they are tried (CodeExecutor.h:45). */
  const Operators: seq<string> := ["==", "!=", "<=", ">=", "<", ">"]

  /** The built-in function names, in the order they are scanned (CodeExecutor.h:48). */
  const BuiltinFuncs: seq<string> := ["atoi", "output", "valueof", "defined", "elapsed"]

  /** `INT_MAX` for the 32-bit `int` that `std::stoi` returns. */
  const IntMax: int := 0x7fff_ffff

  const Quote: string := "\""

  /** `defined` (CodeExecutor.cpp:18-24). */
  function Defined(ex: Executor, name: string): (r: bool)
    ensures r <==> name == ex.inputName
  {
    ex.inputName == name
  }

  /**
   * `valueof` (CodeExecutor.cpp:27-34): the selected input's value for any declared
   * input, whatever its name, and "" for a name that is not declared.
   */
  function ValueOf(ex: Executor, name: string): (r: string)
    ensures name in ex.inputs ==> r == ex.inputValue
    ensures name !in ex.inputs ==> r == ""
  {
    if Contains(ex.inputs, name) then ex.inputValue else ""
  }

  /** `isdigit` in the "C" locale. */
  predicate IsDigit(c: char) {
    '0' <= c <= '9'
  }

  /** `isNumber` (CodeExecutor.cpp:197-205): every character is a digit, so "" is a number. */
  function IsNumber(s: string): (r: bool)
    ensures r <==> forall i :: 0 <= i < |s| ==> IsDigit(s[i])
  {
    if s == [] then true else IsDigit(s[0]) && IsNumber(s[1..])
  }

  /** The value of the decimal numeral `s`. */
  function DigitsValue(s: string): nat
    requires IsNumber(s)
  {
    if s == [] then 0 else 10 * DigitsValue(s[..|s| - 1]) + (s[|s| - 1] as int - '0' as int)
  }

  /** `std::stoi` on a digit string, the only texts the source hands to it. */
  function Stoi(s: string): (r: Result<int, Error>)
    requires IsNumber(s)
    ensures r.Success? ==> 0 <= r.value <= IntMax
  {
    if s == [] then Failure(InvalidArgument)
    else if DigitsValue(s) > IntMax then Failure(OutOfRange)
    else Success(DigitsValue(s))
  }

  /** The decimal numeral of `n`, without leading zeros. */
  function Decimal(n: nat): (r: string)
    ensures r != [] && IsNumber(r)
  {
    if n < 10 then [('0' as int + n) as char]
    else Decimal(n / 10) + [('0' as int + n % 10) as char]
  }

  /** `Stoi` reads back every `int` it can return from its decimal numeral. */
  lemma {:induction false} DigitsValueDecimal(n: nat)
    ensures DigitsValue(Decimal(n)) == n
  {
    if n >= 10 {
      var d := Decimal(n);
      assert d[..|d| - 1] == Decimal(n / 10);
      DigitsValueDecimal(n / 10);
    }
  }

  /** `Stoi` inverts `Decimal` on the `int` range and fails beyond it. */
  lemma StoiDecimal(n: nat)
    ensures n <= IntMax ==> Stoi(Decimal(n)) == Success(n)
    ensures n > IntMax ==> Stoi(Decimal(n)) == Failure(OutOfRange)
  {
    DigitsValueDecimal(n);
  }

  /**
   * The name between the first '"' at or after `from` and the next '"' (lines 140-142,
   * 165-167, 176-178). With no quote after `from` the search restarts at index 0, because
   * `npos + 1` is 0; a missing closing quote makes the name run to the end.
   */
  function QuotedName(expr: string, from: nat): (r: string)
    ensures |r| <= |expr|
  {
    var open := Find(expr, Quote, from);
    var start := if open.Some? then open.value + 1 else 0;
    match Find(expr, Quote, start)
    case None => expr[start..]
    case Some(end) => expr[start..end]
  }

  /**
   * The value text of `output(...)` (lines 179-181): from after the first ',' at or after
   * `from` (or from index 0 when there is none) up to the next ')' or the end.
   */
  function OutputValue(expr: string, from: nat): string {
    var comma := Find(expr, ",", from);
    var start := if comma.Some? then comma.value + 1 else 0;
    match Find(expr, ")", start)
    case None => expr[start..]
    case Some(end) => expr[start..end]
  }

  /** The '(' searched for at line 152 is the one that ends `atoi(`. */
  lemma AtoiParen(expr: string, a: nat)
    requires OccursAt(expr, "atoi(", a)
    ensures Find(expr, "(", a) == Some(a + 4)
  {
    assert expr[a..a + 5] == "atoi(";
    assert expr[a + 4] == expr[a..a + 5][4];
    forall i | a <= i < a + 4 ensures expr[i] != '(' {
      assert expr[i] == expr[a..a + 5][i - a];
    }
    FindChar(expr, '(', a, a + 4);
  }

  /** The argument text of `atoi(...)` (lines 152-154): after its '(' up to the next ')'. */
  function AtoiArgument(expr: string, a: nat): (r: string)
    requires OccursAt(expr, "atoi(", a)
    ensures |r| < |expr|
  {
    AtoiParen(expr, a);
    var start := Find(expr, "(", a).value + 1;
    match Find(expr, ")", start)
    case None => expr[start..]
    case Some(end) => expr[start..end]
  }

  /**
   * `evaluateExpr` (CodeExecutor.cpp:132-195). The built-ins are recognised anywhere in
   * the text, in the order `defined(`, `atoi(`, `valueof(`, `output(`, then a numeral;
   * anything else is -1. Only `defined` gives a bool, and a string only comes from
   * `valueof`.
   */
  function Evaluate(ex: Executor, expr: string): (r: Result<Evaluation, Error>)
    decreases |expr|
    ensures expr == [] ==> r == Success(Evaluation(IntValue(-1), []))
    ensures (r.Success? && r.value.value.BoolValue?) <==>
              (expr != [] && Find(expr, "defined(", 0).Some?)
    ensures r.Success? && r.value.value.StringValue? ==> Find(expr, "valueof(", 0).Some?
  {
    if expr == [] then Success(Evaluation(IntValue(-1), []))
    else match Find(expr, "defined(", 0)
      case Some(d) => Success(Evaluation(BoolValue(Defined(ex, QuotedName(expr, d))), []))
      case None =>
        match Find(expr, "atoi(", 0)
        case None => EvaluateAfterAtoi(ex, expr, [])
        case Some(a) =>
          // the argument is evaluated once, again if it is a string, and a third
          // time if it is a numeral; each evaluation repeats its writes
          match Evaluate(ex, AtoiArgument(expr, a))
          case Failure(e) => Failure(e)
          case Success(inner) =>
            if inner.value.StringValue? && IsNumber(inner.value.s) then
              match Stoi(inner.value.s)
              case Failure(e) => Failure(e)
              case Success(n) =>
                Success(Evaluation(IntValue(n), inner.writes + inner.writes + inner.writes))
            else if inner.value.StringValue? then
              EvaluateAfterAtoi(ex, expr, inner.writes + inner.writes)
            else EvaluateAfterAtoi(ex, expr, inner.writes)
  }

  /**
   * Lines 161-194 of `evaluateExpr`, reached with no `defined(` in `expr` and after the
   * writes `pre` of a failed `atoi` attempt.
   */
  function EvaluateAfterAtoi(ex: Executor, expr: string, pre: seq<Write>): (r: Result<Evaluation, Error>)
    requires expr != []
    ensures r.Success? ==> !r.value.value.BoolValue?
    ensures r.Success? && r.value.writes != pre ==> Find(expr, "output(", 0).Some?
    ensures r.Success? && r.value.value.StringValue? ==> Find(expr, "valueof(", 0).Some?
  {
    match Find(expr, "valueof(", 0)
    case Some(v) => Success(Evaluation(StringValue(ValueOf(ex, QuotedName(expr, v))), pre))
    case None =>
      match Find(expr, "output(", 0)
      case Some(o) =>
        Success(Evaluation(IntValue(-1), pre + [Write(QuotedName(expr, o), OutputValue(expr, o))]))
      case None =>
        if IsNumber(expr) then
          match Stoi(expr)
          case Failure(e) => Failure(e)
          case Success(n) => Success(Evaluation(IntValue(n), pre))
        else Success(Evaluation(IntValue(-1), pre))
  }

  /** Every write comes from an `output(` call somewhere in the text. */
  lemma {:induction false} WritesNeedOutput(ex: Executor, expr: string)
    ensures Evaluate(ex, expr).Success? && Evaluate(ex, expr).value.writes != [] ==>
              Find(expr, "output(", 0).Some?
    decreases |expr|
  {
    if expr != [] && Find(expr, "defined(", 0).None? && Find(expr, "atoi(", 0).Some? {
      var a := Find(expr, "atoi(", 0).value;
      var inside := AtoiArgument(expr, a);
      var rec := Evaluate(ex, inside);
      if rec.Success? && rec.value.writes != [] {
        WritesNeedOutput(ex, inside);
        AtoiArgumentSlice(expr, a);
        match Find(expr, ")", a + 5)
        case None => FindInSuffix(expr, "output(", a + 5);
        case Some(end) => FindInSlice(expr, "output(", a + 5, end);
      } else if rec.Success? {
        assert rec.value.writes + rec.value.writes == [];
      }
    }
  }

  /** The argument of `atoi(` is a slice of the text. */
  lemma AtoiArgumentSlice(expr: string, a: nat)
    requires OccursAt(expr, "atoi(", a)
    ensures Find(expr, "(", a) == Some(a + 4)
    ensures var start := a + 5;
      start <= |expr| &&
      match Find(expr, ")", start)
      case None => AtoiArgument(expr, a) == expr[start..]
      case Some(end) => start <= end <= |expr| && AtoiArgument(expr, a) == expr[start..end]
  {
    AtoiParen(expr, a);
  }

  /** A name between a first quote at `q` and the next quote is what `QuotedName` reads. */
  lemma QuotedNameAt(expr: string, from: nat, q: nat, n: string)
    requires from <= q && q + |n| + 1 < |expr| && '"' !in n
    requires expr[q] == '"' && forall i :: from <= i < q ==> expr[i] != '"'
    requires expr[q + 1..q + 1 + |n|] == n && expr[q + 1 + |n|] == '"'
    ensures QuotedName(expr, from) == n
  {
    assert Quote == ['"'];
    FindChar(expr, '"', from, q);
    FindAfterPiece(expr, q + 1, n, '"');
  }

  /** A value between a first comma at `c` and the next ')' is what `OutputValue` reads. */
  lemma OutputValueAt(expr: string, from: nat, c: nat, v: string)
    requires from <= c && c + |v| + 1 < |expr| && ')' !in v
    requires expr[c] == ',' && forall i :: from <= i < c ==> expr[i] != ','
    requires expr[c + 1..c + 1 + |v|] == v && expr[c + 1 + |v|] == ')'
    ensures OutputValue(expr, from) == v
  {
    FindChar(expr, ',', from, c);
    FindAfterPiece(expr, c + 1, v, ')');
    assert Find(expr, ",", from) == Some(c) && Find(expr, ")", c + 1) == Some(c + 1 + |v|);
  }

  /** Any text holding `defined(` is the bool telling whether its quoted name is the input's. */
  lemma EvaluateDefined(ex: Executor, expr: string, d: nat)
    requires Find(expr, "defined(", 0) == Some(d)
    ensures Evaluate(ex, expr) ==
      Success(Evaluation(BoolValue(QuotedName(expr, d) == ex.inputName), []))
  {
  }

  /** `defined("n")` holds exactly for the name of the input being processed, and writes nothing. */
  lemma EvaluateDefinedCall(ex: Executor, n: string)
    requires '"' !in n
    ensures Evaluate(ex, "defined(\"" + n + "\")") == Success(Evaluation(BoolValue(n == ex.inputName), []))
  {
    var s := "defined(\"" + n + "\")";
    assert s[..8] == "defined(";
    FindIs(s, "defined(", 0, 0);
    forall i | 0 <= i < 8 ensures s[i] != '"' {
      assert s[i] == "defined("[i];
    }
    assert s[9..9 + |n|] == n;
    QuotedNameAt(s, 0, 8, n);
    EvaluateDefined(ex, s, 0);
  }

  /**
   * The `atoi(` attempt in `expr` gives way to the later built-ins: there is none, or its
   * argument evaluates to something other than a numeral string.
   */
  predicate AtoiDeclines(ex: Executor, expr: string) {
    match Find(expr, "atoi(", 0)
    case None => true
    case Some(a) =>
      var inner := Evaluate(ex, AtoiArgument(expr, a));
      inner.Success? && !(inner.value.value.StringValue? && IsNumber(inner.value.value.s))
  }

  /**
   * Without `defined(`, and once `atoi(` has given way, a `valueof(` at `p` is the value of
   * its quoted input; with no `atoi(` at all nothing is written.
   */
  lemma EvaluateValueof(ex: Executor, expr: string, p: nat)
    requires Find(expr, "defined(", 0).None? && AtoiDeclines(ex, expr)
    requires Find(expr, "valueof(", 0) == Some(p)
    ensures Evaluate(ex, expr).Success?
    ensures Evaluate(ex, expr).value.value == StringValue(ValueOf(ex, QuotedName(expr, p)))
    ensures Find(expr, "atoi(", 0).None? ==> Evaluate(ex, expr).value.writes == []
  {
  }

  /** `valueof("n")` is the input's value when `n` is declared, otherwise "", and writes nothing. */
  lemma EvaluateValueofCall(ex: Executor, n: string)
    requires '"' !in n && '(' !in n
    ensures Evaluate(ex, "valueof(\"" + n + "\")") == Success(Evaluation(StringValue(ValueOf(ex, n)), []))
  {
    var s := "valueof(\"" + n + "\")";
    assert s[..8] == "valueof(";
    forall i | 0 <= i < |s| && i != 7 ensures s[i] != '(' {
      if 9 <= i < 9 + |n| {
        assert s[i] == n[i - 9];
      }
    }
    assert s[0..8] != "defined(";
    FindLastCharOnly(s, "defined(", 7);
    assert s[3..8] != "atoi(";
    FindLastCharOnly(s, "atoi(", 7);
    FindIs(s, "valueof(", 0, 0);
    forall i | 0 <= i < 8 ensures s[i] != '"' {
      assert s[i] == "valueof("[i];
    }
    assert s[9..9 + |n|] == n;
    QuotedNameAt(s, 0, 8, n);
    EvaluateValueof(ex, s, 0);
  }

  /**
   * An `atoi(` whose argument evaluates to a numeral string `v` (lines 150-158) is `stoi`
   * of `v`: its failure, or the int with the argument's writes made three times over.
   */
  lemma EvaluateAtoi(ex: Executor, expr: string, a: nat, v: string, w: seq<Write>)
    requires Find(expr, "defined(", 0).None? && Find(expr, "atoi(", 0) == Some(a)
    requires Evaluate(ex, AtoiArgument(expr, a)) == Success(Evaluation(StringValue(v), w))
    requires IsNumber(v)
    ensures Stoi(v).Failure? ==> Evaluate(ex, expr) == Failure(Stoi(v).error)
    ensures Stoi(v).Success? ==> Evaluate(ex, expr) == Success(Evaluation(IntValue(Stoi(v).value), w + w + w))
  {
    assert expr != [];
  }

  /** An `atoi(` whose argument fails makes the whole text fail with the same error. */
  lemma EvaluateAtoiFails(ex: Executor, expr: string, a: nat, e: Error)
    requires Find(expr, "defined(", 0).None? && Find(expr, "atoi(", 0) == Some(a)
    requires Evaluate(ex, AtoiArgument(expr, a)) == Failure(e)
    ensures Evaluate(ex, expr) == Failure(e)
  {
    assert expr != [];
  }

  /**
   * An `atoi(` whose argument is a string but not a numeral gives way to `valueof(` at
   * `p`: the value of its quoted input, with the argument's writes made twice.
   */
  lemma EvaluateAtoiWord(ex: Executor, expr: string, a: nat, v: string, w: seq<Write>, p: nat)
    requires Find(expr, "defined(", 0).None? && Find(expr, "atoi(", 0) == Some(a)
    requires Evaluate(ex, AtoiArgument(expr, a)) == Success(Evaluation(StringValue(v), w))
    requires !IsNumber(v) && Find(expr, "valueof(", 0) == Some(p)
    ensures Evaluate(ex, expr) == Success(Evaluation(StringValue(ValueOf(ex, QuotedName(expr, p))), w + w))
  {
    assert expr != [];
    assert EvaluateAfterAtoi(ex, expr, w + w) == Success(Evaluation(StringValue(ValueOf(ex, QuotedName(expr, p))), w + w));
  }

  /**
   * With none of `defined(`, `atoi(` and `valueof(`, an `output(` at `o` writes its value
   * text under its quoted name and is -1.
   */
  lemma EvaluateOutput(ex: Executor, expr: string, o: nat)
    requires Find(expr, "defined(", 0).None? && Find(expr, "atoi(", 0).None?
    requires Find(expr, "valueof(", 0).None? && Find(expr, "output(", 0) == Some(o)
    ensures Evaluate(ex, expr) ==
      Success(Evaluation(IntValue(-1), [Write(QuotedName(expr, o), OutputValue(expr, o))]))
  {
    var w := [Write(QuotedName(expr, o), OutputValue(expr, o))];
    assert [] + w == w;
  }

  /** In `output("n",v)` the only '(' is the one of `output(`, so no other built-in is found. */
  lemma OutputCallSearches(n: string, v: string)
    requires '(' !in n && '(' !in v
    ensures var s := "output(\"" + n + "\"," + v + ")";
      Find(s, "defined(", 0).None? && Find(s, "atoi(", 0).None? &&
      Find(s, "valueof(", 0).None? && Find(s, "output(", 0) == Some(0)
  {
    var s := "output(\"" + n + "\"," + v + ")";
    assert s[..7] == "output(";
    forall i | 0 <= i < |s| && i != 6 ensures s[i] != '(' {
      if 8 <= i < 8 + |n| {
        assert s[i] == n[i - 8];
      } else if 10 + |n| <= i < 10 + |n| + |v| {
        assert s[i] == v[i - 10 - |n|];
      }
    }
    FindLastCharOnly(s, "defined(", 6);
    assert s[2..7] != "atoi(";
    FindLastCharOnly(s, "atoi(", 6);
    FindLastCharOnly(s, "valueof(", 6);
    FindIs(s, "output(", 0, 0);
  }

  /** `output("n",v)` is -1 and makes exactly the one write of `v` under `n`. */
  lemma EvaluateOutputCall(ex: Executor, n: string, v: string)
    requires '"' !in n && ',' !in n && '(' !in n && '(' !in v && ')' !in v
    ensures Evaluate(ex, "output(\"" + n + "\"," + v + ")") == Success(Evaluation(IntValue(-1), [Write(n, v)]))
  {
    var s := "output(\"" + n + "\"," + v + ")";
    OutputCallSearches(n, v);
    forall i | 0 <= i < 7 ensures s[i] != '"' && s[i] != ',' {
      assert s[i] == "output("[i];
    }
    assert s[8..8 + |n|] == n;
    QuotedNameAt(s, 0, 7, n);
    forall i | 7 <= i < 9 + |n| ensures s[i] != ',' {
      if 8 <= i < 8 + |n| {
        assert s[i] == n[i - 8];
      }
    }
    assert s[10 + |n|..10 + |n| + |v|] == v;
    OutputValueAt(s, 0, 9 + |n|, v);
    EvaluateOutput(ex, s, 0);
  }

  /** A numeral is its value up to `INT_MAX` and `std::out_of_range` beyond it; it writes nothing. */
  lemma EvaluateNumeral(ex: Executor, n: nat)
    ensures n <= IntMax ==> Evaluate(ex, Decimal(n)) == Success(Evaluation(IntValue(n), []))
    ensures n > IntMax ==> Evaluate(ex, Decimal(n)) == Failure(OutOfRange)
  {
    var s := Decimal(n);
    assert 'd' !in s && 'a' !in s && 'v' !in s && 'o' !in s by {
      forall i | 0 <= i < |s| ensures IsDigit(s[i]) {
      }
    }
    FindAbsentChar(s, "defined(", 0, 0);
    FindAbsentChar(s, "atoi(", 0, 0);
    FindAbsentChar(s, "valueof(", 0, 0);
    FindAbsentChar(s, "output(", 0, 0);
    StoiDecimal(n);
  }

  /** Text with no built-in that is not a numeral is -1 and writes nothing. */
  lemma EvaluateOther(ex: Executor, expr: string)
    requires Find(expr, "defined(", 0).None? && Find(expr, "atoi(", 0).None?
    requires Find(expr, "valueof(", 0).None? && Find(expr, "output(", 0).None?
    requires !IsNumber(expr)
    ensures Evaluate(ex, expr) == Success(Evaluation(IntValue(-1), []))
  {
  }

  /**
   * The first operator of `ops` that occurs anywhere in `cond`, as its index in `ops`
   * (the loop at CodeExecutor.cpp:98-105).
   */
  function FirstOperatorIn(cond: string, ops: seq<string>): (r: Option<nat>)
    requires forall k :: 0 <= k < |ops| ==> ops[k] != []
    ensures r.Some? ==> r.value < |ops| && Find(cond, ops[r.value], 0).Some?
    ensures forall k :: 0 <= k < |ops| && (r.None? || k < r.value) ==> Find(cond, ops[k], 0).None?
  {
    if ops == [] then None
    else if Find(cond, ops[0], 0).Some? then Some(0)
    else match FirstOperatorIn(cond, ops[1..])
      case None => None
      case Some(k) => Some(k + 1)
  }

  /** `FirstOperatorIn` for the source's operator list. */
  function FirstOperator(cond: string): (r: Option<nat>)
    ensures r.Some? ==> r.value < |Operators| && Find(cond, Operators[r.value], 0).Some?
    ensures forall k :: 0 <= k < |Operators| && (r.None? || k < r.value) ==>
              Find(cond, Operators[k], 0).None?
  {
    FirstOperatorIn(cond, Operators)
  }

  /**
   * `compareExprValues` (CodeExecutor.cpp:207-262): values of different kinds are never
   * related; bools and strings know only `==` and `!=`; ints know all six operators.
   */
  function CompareExprValues(left: ExprValue, right: ExprValue, op: string): (r: bool)
    ensures Tag(left) != Tag(right) ==> !r
    ensures op == "==" ==> (r <==> left == right)
    ensures op == "!=" ==> (r <==> Tag(left) == Tag(right) && left != right)
    ensures op in ["<", "<=", ">", ">="] ==> (r ==> left.IntValue? && right.IntValue?)
    ensures left.IntValue? && right.IntValue? ==>
              (op == "<" ==> (r <==> left.i < right.i)) &&
              (op == "<=" ==> (r <==> left.i <= right.i)) &&
              (op == ">" ==> (r <==> left.i > right.i)) &&
              (op == ">=" ==> (r <==> left.i >= right.i))
    ensures op !in Operators ==> !r
  {
    if Tag(left) != Tag(right) then false
    else match (left, right)
      case (BoolValue(a), BoolValue(b)) =>
        if op == "==" then a == b else if op == "!=" then a != b else false
      case (IntValue(a), IntValue(b)) =>
        if op == "==" then a == b
        else if op == "!=" then a != b
        else if op == "<" then a < b
        else if op == "<=" then a <= b
        else if op == ">" then a > b
        else if op == ">=" then a >= b
        else false
      case (StringValue(a), StringValue(b)) =>
        if op == "==" then a == b else if op == "!=" then a != b else false
      case _ => false
  }

  /**
   * `evaluateCond` (CodeExecutor.cpp:93-130): without an operator the text must evaluate
   * to a bool; otherwise it is split at the first occurrence of the chosen operator and
   * the two sides, evaluated left then right, are compared.
   */
  function EvaluateCond(ex: Executor, cond: string): (r: Result<Outcome, Error>)
  {
    match FirstOperator(cond)
    case None =>
      (match Evaluate(ex, cond)
       case Failure(e) => Failure(e)
       case Success(v) =>
         if v.value.BoolValue? then Success(Outcome(v.value.b, v.writes))
         else Failure(UninitialisedOperator))
    case Some(k) =>
      var op := Operators[k];
      var pos := Find(cond, op, 0).value;
      CompareSides(Evaluate(ex, cond[..pos]), Evaluate(ex, cond[pos + |op|..]), op)
  }

  /**
   * Lines 123-129: the left side's failure, else the right side's, else the comparison
   * of the two values with the writes of both sides in order.
   */
  function CompareSides(left: Result<Evaluation, Error>, right: Result<Evaluation, Error>, op: string)
    : (r: Result<Outcome, Error>)
    ensures r.Success? <==> left.Success? && right.Success?
    ensures r.Success? ==> r.value.writes == left.value.writes + right.value.writes
  {
    match left
    case Failure(e) => Failure(e)
    case Success(l) =>
      match right
      case Failure(e) => Failure(e)
      case Success(r) => Success(Outcome(CompareExprValues(l.value, r.value, op), l.writes + r.writes))
  }

  /**
   * The split `evaluateCond` makes: the first listed operator that occurs anywhere wins,
   * so a text that contains `==`, or contains `<=` but neither `==` nor `!=`, is never
   * split at a later operator such as `<`.
   */
  lemma OperatorChoice(cond: string)
    ensures Find(cond, "==", 0).Some? ==> FirstOperator(cond) == Some(0)
    ensures Find(cond, "==", 0).None? && Find(cond, "!=", 0).Some? ==> FirstOperator(cond) == Some(1)
    ensures Find(cond, "<=", 0).Some? ==> FirstOperator(cond).Some? && Operators[FirstOperator(cond).value] != "<"
  {
    var r := FirstOperator(cond);
    assert Operators[0] == "==" && Operators[1] == "!=" && Operators[2] == "<=";
    if Find(cond, "<=", 0).Some? {
      assert Operators[2] == "<=";
      assert r.Some? && r.value <= 2;
    }
  }

  /**
   * A condition without an operator is the `defined(` test of its quoted name, and
   * writes nothing.
   */
  lemma CondWithoutOperator(ex: Executor, cond: string, d: nat)
    requires FirstOperator(cond).None? && Find(cond, "defined(", 0) == Some(d)
    ensures EvaluateCond(ex, cond) == Success(Outcome(QuotedName(cond, d) == ex.inputName, []))
  {
    EvaluateDefined(ex, cond, d);
  }

  /**
   * A condition without an operator and without `defined(` fails: its value is not a
   * bool, or the evaluation itself fails.
   */
  lemma CondNeedsDefined(ex: Executor, cond: string)
    requires FirstOperator(cond).None? && (cond == [] || Find(cond, "defined(", 0).None?)
    ensures EvaluateCond(ex, cond).Failure?
  {
    var v := Evaluate(ex, cond);
    assert v.Success? ==> !v.value.value.BoolValue?;
  }

  /** `EvaluateCond` on a text split at its chosen operator, from the values of the two sides. */
  lemma CondAtOperator(ex: Executor, cond: string, k: nat, pos: nat, left: Evaluation, right: Evaluation)
    requires FirstOperator(cond) == Some(k) && Find(cond, Operators[k], 0) == Some(pos)
    requires Evaluate(ex, cond[..pos]) == Success(left)
    requires Evaluate(ex, cond[pos + |Operators[k]|..]) == Success(right)
    ensures EvaluateCond(ex, cond) ==
            Success(Outcome(CompareExprValues(left.value, right.value, Operators[k]), left.writes + right.writes))
  {
    CondSplits(ex, cond, k, pos);
  }

  /** A condition with an operator is the comparison of its two sides around the operator's first occurrence. */
  lemma CondSplits(ex: Executor, cond: string, k: nat, pos: nat)
    requires FirstOperator(cond) == Some(k) && Find(cond, Operators[k], 0) == Some(pos)
    ensures EvaluateCond(ex, cond) ==
            CompareSides(Evaluate(ex, cond[..pos]), Evaluate(ex, cond[pos + |Operators[k]|..]), Operators[k])
  {
    var op := Operators[k];
    var left, right := Evaluate(ex, cond[..pos]), Evaluate(ex, cond[pos + |op|..]);
    assert EvaluateCond(ex, cond) == CompareSides(left, right, op);
  }

  /** A condition changes outputs only when it contains an `output(` call. */
  lemma CondWritesNeedOutput(ex: Executor, cond: string)
    ensures EvaluateCond(ex, cond).Success? && EvaluateCond(ex, cond).value.writes != [] ==>
              Find(cond, "output(", 0).Some?
  {
    match FirstOperator(cond)
    case None =>
      WritesNeedOutput(ex, cond);
    case Some(k) =>
      var op := Operators[k];
      var pos := Find(cond, op, 0).value;
      CondSplits(ex, cond, k, pos);
      LeftWritesNeedOutput(ex, cond, pos);
      RightWritesNeedOutput(ex, cond, pos + |op|);
  }

  /** Writes of the text before `pos` come from an `output(` in the whole text. */
  lemma LeftWritesNeedOutput(ex: Executor, cond: string, pos: nat)
    requires pos <= |cond|
    ensures Evaluate(ex, cond[..pos]).Success? && Evaluate(ex, cond[..pos]).value.writes != [] ==>
              Find(cond, "output(", 0).Some?
  {
    var left := cond[..pos];
    WritesNeedOutput(ex, left);
    if Find(left, "output(", 0).Some? {
      assert cond[0..pos] == left;
      FindInSlice(cond, "output(", 0, pos);
    }
  }

  /** Writes of the text from `from` on come from an `output(` in the whole text. */
  lemma RightWritesNeedOutput(ex: Executor, cond: string, from: nat)
    requires from <= |cond|
    ensures Evaluate(ex, cond[from..]).Success? && Evaluate(ex, cond[from..]).value.writes != [] ==>
              Find(cond, "output(", 0).Some?
  {
    WritesNeedOutput(ex, cond[from..]);
    if Find(cond[from..], "output(", 0).Some? {
      FindInSuffix(cond, "output(", from);
    }
  }

  /** `executeTransitionBoolExpr` (CodeExecutor.cpp:44-47): the guard without spaces. */
  function ExecuteTransitionBoolExpr(ex: Executor): Result<Outcome, Error> {
    EvaluateCond(ex, RemoveSpaces(ex.transitionExpr))
  }

  /**
   * A guard changes outputs only through an `output(` call in it, and a guard written
   * without spaces is evaluated as it stands.
   */
  lemma GuardWrites(ex: Executor)
    ensures var r := ExecuteTransitionBoolExpr(ex);
      r.Success? && r.value.writes != [] ==> Find(RemoveSpaces(ex.transitionExpr), "output(", 0).Some?
    ensures ' ' !in ex.transitionExpr ==> ExecuteTransitionBoolExpr(ex) == EvaluateCond(ex, ex.transitionExpr)
  {
    CondWritesNeedOutput(ex, RemoveSpaces(ex.transitionExpr));
    if ' ' !in ex.transitionExpr {
      RemoveSpacesKeeps(ex.transitionExpr);
    }
  }

  /** Only the inputs, the input's name and its value matter to an evaluation, not the guard text. */
  lemma {:induction false} EvaluateIgnoresGuard(ex: Executor, t: string, expr: string)
    ensures Evaluate(ex.(transitionExpr := t), expr) == Evaluate(ex, expr)
    decreases |expr|
  {
    var ex' := ex.(transitionExpr := t);
    if expr != [] && Find(expr, "defined(", 0).None? {
      assert EvaluateAfterAtoi(ex', expr, []) == EvaluateAfterAtoi(ex, expr, []);
      if Find(expr, "atoi(", 0).Some? {
        var inside := AtoiArgument(expr, Find(expr, "atoi(", 0).value);
        EvaluateIgnoresGuard(ex, t, inside);
        var w := Evaluate(ex, inside);
        if w.Success? {
          assert EvaluateAfterAtoi(ex', expr, w.value.writes) == EvaluateAfterAtoi(ex, expr, w.value.writes);
          assert EvaluateAfterAtoi(ex', expr, w.value.writes + w.value.writes)
              == EvaluateAfterAtoi(ex, expr, w.value.writes + w.value.writes);
        }
      }
    }
  }

  /** Neither does a condition depend on the guard text stored in the executor. */
  lemma CondIgnoresGuard(ex: Executor, t: string, cond: string)
    ensures EvaluateCond(ex.(transitionExpr := t), cond) == EvaluateCond(ex, cond)
  {
    match FirstOperator(cond)
    case None =>
      EvaluateIgnoresGuard(ex, t, cond);
    case Some(k) =>
      var op := Operators[k];
      var pos := Find(cond, op, 0).value;
      CondSplits(ex, cond, k, pos);
      CondSplits(ex.(transitionExpr := t), cond, k, pos);
      EvaluateIgnoresGuard(ex, t, cond[..pos]);
      EvaluateIgnoresGuard(ex, t, cond[pos + |op|..]);
  }

  /**
   * `executeTransitionBoolExpr` removes the spaces itself, so a guard and the same guard
   * without its spaces decide a transition alike.
   */
  lemma GuardIgnoresSpaces(ex: Executor)
    ensures ExecuteTransitionBoolExpr(ex.(transitionExpr := RemoveSpaces(ex.transitionExpr)))
         == ExecuteTransitionBoolExpr(ex)
  {
    var t := RemoveSpaces(ex.transitionExpr);
    RemoveSpacesIdempotent(ex.transitionExpr);
    assert RemoveSpaces(t) == t;
    CondIgnoresGuard(ex, t, t);
  }

  /** The writes `w` placed in front of those of a successful result. */
  function Prepend(w: seq<Write>, r: Result<(string, seq<Write>), Error>): Result<(string, seq<Write>), Error> {
    match r
    case Failure(e) => Failure(e)
    case Success((rest, ws)) => Success((rest, w + ws))
  }

  /** The '{' searched for at line 59 is the one that ends `if{`. */
  lemma IfBrace(t: string, i: nat)
    requires OccursAt(t, "if{", i)
    ensures Find(t, "{", i) == Some(i + 2)
  {
    assert t[i..i + 3] == "if{";
    assert t[i + 2] == t[i..i + 3][2];
    forall k | i <= k < i + 2 ensures t[k] != '{' {
      assert t[k] == t[i..i + 3][k - i];
    }
    FindChar(t, '{', i, i + 2);
  }

  /**
   * One pass of the loop at CodeExecutor.cpp:56-74 on the text `t`, whose first `if{` is
   * at `i`: the condition is evaluated, the body is skipped, and the text after the
   * body's '}' remains. A body with no '}' leaves the text as it was (`npos + 1` is 0),
   * so the loop would repeat the same pass forever.
   */
  function IfBlockStep(ex: Executor, t: string, i: nat): (r: Result<(string, seq<Write>), Error>)
    requires OccursAt(t, "if{", i)
    ensures r.Success? ==> |r.value.0| < |t|
  {
    IfBrace(t, i);
    var condStart := Find(t, "{", i).value + 1;
    var condEnd := Find(t, "}", condStart);
    var condition := if condEnd.Some? then t[condStart..condEnd.value] else t[condStart..];
    match EvaluateCond(ex, condition)
    case Failure(e) => Failure(e)
    case Success(c) =>
      var bodyOpen := if condEnd.Some? then Find(t, "{", condEnd.value) else None;
      var bodyStart := if bodyOpen.Some? then bodyOpen.value + 1 else 0;
      match Find(t, "}", bodyStart)
      case None => Failure(NonTerminating)
      case Some(bodyEnd) => Success((t[bodyEnd + 1..], c.writes))
  }

  /** The loop at CodeExecutor.cpp:56-74: every `if{..}{..}` block removed, in turn. */
  function StripIfBlocks(ex: Executor, t: string): (r: Result<(string, seq<Write>), Error>)
    decreases |t|
    ensures r.Success? ==> Find(r.value.0, "if{", 0).None?
  {
    match Find(t, "if{", 0)
    case None => Success((t, []))
    case Some(i) =>
      match IfBlockStep(ex, t, i)
      case Failure(e) => Failure(e)
      case Success((rest, w)) => Prepend(w, StripIfBlocks(ex, rest))
  }

  /** The pieces of `if{c}{b}` followed by `rest`, by position. */
  lemma IfBlockPieces(c: string, b: string, rest: string)
    ensures var t := "if{" + c + "}{" + b + "}" + rest;
      |t| == 6 + |c| + |b| + |rest| && t[..3] == "if{" && t[3..3 + |c|] == c &&
      t[3 + |c|] == '}' && t[4 + |c|] == '{' && t[5 + |c|..5 + |c| + |b|] == b &&
      t[5 + |c| + |b|] == '}' && t[6 + |c| + |b|..] == rest
  {
  }

  /** The searches for the condition of a text laid out as `if{c}{`, when `c` holds no '}'. */
  lemma IfCondSearches(t: string, c: string)
    requires '}' !in c && 5 + |c| <= |t|
    requires t[..3] == "if{" && t[3..3 + |c|] == c && t[3 + |c|] == '}' && t[4 + |c|] == '{'
    ensures Find(t, "if{", 0) == Some(0) && Find(t, "{", 0) == Some(2)
    ensures Find(t, "}", 3) == Some(3 + |c|) && Find(t, "{", 3 + |c|) == Some(4 + |c|)
  {
    FindIs(t, "if{", 0, 0);
    IfBrace(t, 0);
    var condEnd := 3 + |c|;
    FindAfterPiece(t, 3, c, '}');
    assert forall i :: condEnd <= i < condEnd + 1 ==> t[i] != '{';
    FindChar(t, '{', condEnd, condEnd + 1);
  }

  /**
   * An `if{c}{b}` block at the front contributes the writes of its condition and nothing
   * of its body: whatever `b` holds, the rest of the text is processed next.
   */
  lemma IfBlockSkipsBody(ex: Executor, c: string, b: string, rest: string)
    requires '}' !in c && '}' !in b
    ensures var cond := EvaluateCond(ex, c);
      StripIfBlocks(ex, "if{" + c + "}{" + b + "}" + rest) ==
      if cond.Success? then Prepend(cond.value.writes, StripIfBlocks(ex, rest)) else Failure(cond.error)
  {
    var t := "if{" + c + "}{" + b + "}" + rest;
    var cond := EvaluateCond(ex, c);
    IfBlockPieces(c, b, rest);
    IfCondSearches(t, c);
    FindAfterPiece(t, 5 + |c|, b, '}');
    assert "}" == ['}'] && "{" == ['{'];
    assert IfBlockStep(ex, t, 0) ==
      if cond.Success? then Success((rest, cond.value.writes)) else Failure(cond.error);
  }

  /**
   * The text of the call starting at `pos` (line 83): up to and including the next ')';
   * with no ')' the count `npos + 1 - pos` wraps to 0 when `pos` is 0 and is past the end
   * otherwise.
   */
  function CallText(t: string, pos: nat): (r: string)
    requires pos <= |t|
    ensures pos > 0 || Find(t, ")", pos).Some? ==> OccursAt(t, r, pos)
    ensures Find(t, ")", pos).Some? ==> r != [] && r[|r| - 1] == ')' && ')' !in r[..|r| - 1]
    ensures Find(t, ")", pos).None? ==> (pos == 0 ==> r == []) && (pos > 0 ==> pos + |r| == |t|)
  {
    CloseParen(t, pos);
    match Find(t, ")", pos)
    case Some(close) => t[pos..close + 1]
    case None => if pos == 0 then "" else t[pos..]
  }

  /** Before the first ')' found from `pos` there is no ')'. */
  lemma CloseParen(t: string, pos: nat)
    ensures Find(t, ")", pos).Some? ==> forall i :: pos <= i < Find(t, ")", pos).value ==> t[i] != ')'
  {
    if Find(t, ")", pos).Some? {
      forall i | pos <= i < Find(t, ")", pos).value ensures t[i] != ')' {
        assert !OccursAt(t, ")", i);
        assert t[i..i + 1] == [t[i]];
      }
    }
  }

  /**
   * The loop at CodeExecutor.cpp:80-86 over the first `n` names of `BuiltinFuncs`: the
   * call text of the last of them that occurs in `t`, or "" when none does.
   */
  function LastBuiltinCall(t: string, n: nat): (r: string)
    requires n <= |BuiltinFuncs|
  {
    if n == 0 then ""
    else match Find(t, BuiltinFuncs[n - 1], 0)
      case Some(pos) => CallText(t, pos)
      case None => LastBuiltinCall(t, n - 1)
  }

  /**
   * The scan keeps the call of the latest-listed name that occurs: when the `k`-th name
   * occurs at `pos` and none after it among the first `n`, its call is the result.
   */
  lemma {:induction false} LastBuiltinCallPicks(t: string, n: nat, k: nat, pos: nat)
    requires k < n <= |BuiltinFuncs| && Find(t, BuiltinFuncs[k], 0) == Some(pos)
    requires forall j :: k < j < n ==> Find(t, BuiltinFuncs[j], 0).None?
    ensures LastBuiltinCall(t, n) == CallText(t, pos)
    decreases n
  {
    if k < n - 1 {
      LastBuiltinCallPicks(t, n - 1, k, pos);
    }
  }

  /** When none of the first `n` names occurs, the scan yields the empty text. */
  lemma {:induction false} LastBuiltinCallNone(t: string, n: nat)
    requires n <= |BuiltinFuncs| && forall j :: 0 <= j < n ==> Find(t, BuiltinFuncs[j], 0).None?
    ensures LastBuiltinCall(t, n) == ""
    decreases n
  {
    if n > 0 {
      LastBuiltinCallNone(t, n - 1);
    }
  }

  /**
   * What `executeStateExpr` (CodeExecutor.cpp:50-91) does to the machine: the writes of
   * the `if{` conditions, then those of the one built-in call it evaluates.
   */
  function StateExprWrites(ex: Executor, expr: string): Result<seq<Write>, Error> {
    match StripIfBlocks(ex, RemoveSpaces(expr))
    case Failure(e) => Failure(e)
    case Success((rest, w)) =>
      match Evaluate(ex, LastBuiltinCall(rest, |BuiltinFuncs|))
      case Failure(e) => Failure(e)
      case Success(v) => Success(w + v.writes)
  }

  /** `StateExprWrites` from its three stages: the `if{` pass, the scan, and the call. */
  lemma StateExprStages(ex: Executor, t: string, rest: string, w: seq<Write>, call: string, v: Evaluation)
    requires StripIfBlocks(ex, RemoveSpaces(t)) == Success((rest, w))
    requires LastBuiltinCall(rest, |BuiltinFuncs|) == call
    requires Evaluate(ex, call) == Success(v)
    ensures StateExprWrites(ex, t) == Success(w + v.writes)
  {
  }

  /** A pattern found in the call text the scan picks is found in the scanned text. */
  lemma {:induction false} CallFoundInText(t: string, n: nat, p: string)
    requires n <= |BuiltinFuncs| && p != []
    ensures Find(LastBuiltinCall(t, n), p, 0).Some? ==> Find(t, p, 0).Some?
    decreases n
  {
    if n > 0 {
      match Find(t, BuiltinFuncs[n - 1], 0)
      case Some(pos) =>
        var r := CallText(t, pos);
        if Find(r, p, 0).Some? && OccursAt(t, r, pos) {
          assert t[pos..pos + |r|] == r;
          FindInSlice(t, p, pos, pos + |r|);
        }
      case None =>
        CallFoundInText(t, n - 1, p);
    }
  }

  /** An entry expression without `if{` blocks changes outputs only through an `output(` call in it. */
  lemma EntryWritesNeedOutput(ex: Executor, expr: string)
    requires Find(RemoveSpaces(expr), "if{", 0).None?
    ensures StateExprWrites(ex, expr).Success? && StateExprWrites(ex, expr).value != [] ==>
              Find(RemoveSpaces(expr), "output(", 0).Some?
  {
    var t := RemoveSpaces(expr);
    var call := LastBuiltinCall(t, |BuiltinFuncs|);
    assert StripIfBlocks(ex, t) == Success((t, []));
    WritesNeedOutput(ex, call);
    CallFoundInText(t, |BuiltinFuncs|, "output(");
    if Evaluate(ex, call).Success? {
      StateExprStages(ex, expr, t, [], call, Evaluate(ex, call).value);
      assert [] + Evaluate(ex, call).value.writes == Evaluate(ex, call).value.writes;
    }
  }

  /** `executeStateExpr` (CodeExecutor.cpp:50-91). */
  method ExecuteStateExpr(ex: Executor, expr: string) returns (r: Result<seq<Write>, Error>)
    ensures r == StateExprWrites(ex, expr)
  {
    var stripped := RemoveIfBlocks(ex, RemoveSpaces(expr));
    if stripped.Failure? {
      return Failure(stripped.error);
    }
    var builtinFuncExpr := FindBuiltinCall(stripped.value.0);
    var builtinFuncEval := Evaluate(ex, builtinFuncExpr);
    if builtinFuncEval.Failure? {
      return Failure(builtinFuncEval.error);
    }
    return Success(stripped.value.1 + builtinFuncEval.value.writes);
  }

  /** The `while` loop of `executeStateExpr` (CodeExecutor.cpp:54-74). */
  method RemoveIfBlocks(ex: Executor, t: string) returns (r: Result<(string, seq<Write>), Error>)
    ensures r == StripIfBlocks(ex, t)
  {
    var trimmedExpr := t;
    var written: seq<Write> := [];
    var ifPos := Find(trimmedExpr, "if{", 0);
    PrependNothing(StripIfBlocks(ex, trimmedExpr));
    while ifPos.Some?
      invariant ifPos == Find(trimmedExpr, "if{", 0)
      invariant StripIfBlocks(ex, t) == Prepend(written, StripIfBlocks(ex, trimmedExpr))
      decreases |trimmedExpr|
    {
      var step := IfBlockStep(ex, trimmedExpr, ifPos.value);
      assert StripIfBlocks(ex, trimmedExpr) == match step
        case Failure(e) => Failure(e)
        case Success((rest, w)) => Prepend(w, StripIfBlocks(ex, rest));
      if step.Failure? {
        return Failure(step.error);
      }
      PrependTwice(written, step.value.1, StripIfBlocks(ex, step.value.0));
      written := written + step.value.1;
      trimmedExpr := step.value.0;
      ifPos := Find(trimmedExpr, "if{", 0);
    }
    assert written + [] == written;
    return Success((trimmedExpr, written));
  }

  /** The `for` loop of `executeStateExpr` (CodeExecutor.cpp:78-86). */
  method FindBuiltinCall(t: string) returns (builtinFuncExpr: string)
    ensures builtinFuncExpr == LastBuiltinCall(t, |BuiltinFuncs|)
  {
    builtinFuncExpr := "";
    for k := 0 to |BuiltinFuncs|
      invariant builtinFuncExpr == LastBuiltinCall(t, k)
    {
      var pos := Find(t, BuiltinFuncs[k], 0);
      if pos.Some? {
        builtinFuncExpr := CallText(t, pos.value);
      }
    }
  }

  /** Prepending no writes changes nothing. */
  lemma PrependNothing(r: Result<(string, seq<Write>), Error>)
    ensures Prepend([], r) == r
  {
    if r.Success? {
      assert [] + r.value.1 == r.value.1;
    }
  }

  /** Prepending twice is prepending the concatenation. */
  lemma PrependTwice(a: seq<Write>, b: seq<Write>, r: Result<(string, seq<Write>), Error>)
    ensures Prepend(a, Prepend(b, r)) == Prepend(a + b, r)
  {
    if r.Success? {
      assert a + (b + r.value.1) == a + b + r.value.1;
    }
  }

  /** The writes applied in order to an output table: the last write to a name wins. */
  function ApplyWrites(out: map<string, string>, ws: seq<Write>): (r: map<string, string>)
    ensures r.Keys == out.Keys + set w | w in ws :: w.name
    decreases |ws|
  {
    if ws == [] then out
    else ApplyWrites(out[ws[0].name := ws[0].value], ws[1..])
  }

  /** Applying `a + b` is applying `a`, then `b`. */
  lemma {:induction false} ApplyWritesAppend(out: map<string, string>, a: seq<Write>, b: seq<Write>)
    ensures ApplyWrites(out, a + b) == ApplyWrites(ApplyWrites(out, a), b)
    decreases |a|
  {
    if a != [] {
      assert (a + b)[0] == a[0];
      assert (a + b)[1..] == a[1..] + b;
      ApplyWritesAppend(out[a[0].name := a[0].value], a[1..], b);
    } else {
      assert a + b == b;
    }
  }

  /** A name that no write mentions keeps its entry. */
  lemma {:induction false} ApplyWritesUntouched(out: map<string, string>, ws: seq<Write>, name: string)
    requires forall k :: 0 <= k < |ws| ==> ws[k].name != name
    ensures name in out ==> name in ApplyWrites(out, ws) && ApplyWrites(out, ws)[name] == out[name]
    ensures name !in out ==> name !in ApplyWrites(out, ws)
    decreases |ws|
  {
    if ws != [] {
      ApplyWritesUntouched(out[ws[0].name := ws[0].value], ws[1..], name);
    }
  }

  /** A name ends up with the value of the last write to it. */
  lemma {:induction false} ApplyWritesLast(out: map<string, string>, ws: seq<Write>, k: nat)
    requires k < |ws| && forall j :: k < j < |ws| ==> ws[j].name != ws[k].name
    ensures ws[k].name in ApplyWrites(out, ws) && ApplyWrites(out, ws)[ws[k].name] == ws[k].value
    decreases k
  {
    if k == 0 {
      ApplyWritesUntouched(out[ws[0].name := ws[0].value], ws[1..], ws[0].name);
    } else {
      ApplyWritesLast(out[ws[0].name := ws[0].value], ws[1..], k - 1);
    }
  }

  /**
   * Repeating a list of writes changes nothing more, so the repeated evaluations of an
   * `atoi` argument leave the outputs as one evaluation would.
   */
  lemma ApplyWritesRepeat(out: map<string, string>, ws: seq<Write>)
    ensures ApplyWrites(ApplyWrites(out, ws), ws) == ApplyWrites(out, ws)
  {
    var once := ApplyWrites(out, ws);
    var twice := ApplyWrites(once, ws);
    forall name | name in twice ensures name in once && twice[name] == once[name] {
      if exists k :: 0 <= k < |ws| && ws[k].name == name {
        var k := LastWriteTo(ws, name);
        ApplyWritesLast(out, ws, k);
        ApplyWritesLast(once, ws, k);
      } else {
        ApplyWritesUntouched(once, ws, name);
      }
    }
  }

  /** The index of the last write to `name`. */
  lemma LastWriteTo(ws: seq<Write>, name: string) returns (k: nat)
    requires exists k :: 0 <= k < |ws| && ws[k].name == name
    ensures k < |ws| && ws[k].name == name && forall j :: k < j < |ws| ==> ws[j].name != name
  {
    k := |ws| - 1;
    while ws[k].name != name
      invariant 0 <= k < |ws| && forall j :: k < j < |ws| ==> ws[j].name != name
      decreases k
    {
      k := k - 1;
    }
  }
}
