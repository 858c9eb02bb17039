/**
 * The interpreter on concrete texts: the sample guard of the bundled example machine
 * `atoi(valueof("in"))==1`, and the fall-through of an `atoi` whose argument is not a
 * numeral. Each fact about one text is proved in a lemma of its own.
 */
module ExecutorExamples {
  import opened Wrappers
  import opened Text
  import opened TransitionSyntax
  import opened CodeExecutor

  /** The text the `atoi` branch hands on: up to the first ')', which closes `valueof`. */
  const ValueofArg: string := "valueof(\"in\""
  const AtoiCall: string := "atoi(" + ValueofArg + "))"
  const Guard: string := AtoiCall + "==1"

  /** `c` does not occur in `s` from index `i` on; it unfolds on a literal one index at a time. */
  predicate AbsentFrom(s: string, c: char, i: nat)
    decreases |s| - i
  {
    i >= |s| || (s[i] != c && AbsentFrom(s, c, i + 1))
  }

  lemma {:induction false} AbsentFromIndices(s: string, c: char, i: nat)
    requires AbsentFrom(s, c, i)
    ensures forall k :: i <= k < |s| ==> s[k] != c
    decreases |s| - i
  {
    if i < |s| {
      AbsentFromIndices(s, c, i + 1);
    }
  }

  lemma Absent(s: string, c: char)
    requires AbsentFrom(s, c, 0)
    ensures c !in s
  {
    AbsentFromIndices(s, c, 0);
  }

  /** An executor for the declared input `in`, selected with value `value`. */
  function OnIn(value: string, guard: string): Executor {
    Executor(["in"], guard, "in", value)
  }

  lemma ValueofArgLacks()
    ensures 'd' !in ValueofArg && 't' !in ValueofArg
  {
    Absent(ValueofArg, 'd');
    Absent(ValueofArg, 't');
  }

  lemma ValueofArgFinds()
    ensures Find(ValueofArg, "defined(", 0) == None
    ensures Find(ValueofArg, "atoi(", 0) == None
    ensures Find(ValueofArg, "valueof(", 0) == Some(0)
  {
    var s := ValueofArg;
    ValueofArgLacks();
    FindAbsentChar(s, "defined(", 0, 0);
    FindAbsentChar(s, "atoi(", 1, 0);
    assert s[0..8] == "valueof(";
  }

  lemma ValueofArgName()
    ensures QuotedName(ValueofArg, 0) == "in"
  {
    var s := ValueofArg;
    FindChar(s, '"', 0, 8);
    FindChar(s, '"', 9, 11);
    assert s[9..11] == "in";
  }

  /** `valueof("in"` (the closing parenthesis is not needed) reads the value of the selected input and writes nothing. */
  lemma ValueofIn(ex: Executor)
    ensures Evaluate(ex, ValueofArg) == Success(Evaluation(StringValue(ValueOf(ex, "in")), []))
  {
    ValueofArgFinds();
    ValueofArgName();
  }

  lemma AtoiCallFinds()
    ensures Find(AtoiCall, "defined(", 0) == None
    ensures Find(AtoiCall, "atoi(", 0) == Some(0)
    ensures Find(AtoiCall, "valueof(", 0) == Some(5)
  {
    var s := AtoiCall;
    assert 'd' !in s by {
      ValueofArgLacks();
    }
    FindAbsentChar(s, "defined(", 0, 0);
    assert s[0..5] == "atoi(";
    assert s[5..13] == "valueof(";
    FindAtFirstChar(s, "valueof(", 0, 5);
  }

  lemma AtoiCallParts()
    ensures AtoiArgument(AtoiCall, 0) == ValueofArg
    ensures QuotedName(AtoiCall, 5) == "in"
  {
    var s := AtoiCall;
    assert s[0..5] == "atoi(";
    AtoiParen(s, 0);
    FindChar(s, ')', 5, 17);
    assert s[5..17] == ValueofArg;
    FindChar(s, '"', 5, 13);
    FindChar(s, '"', 14, 16);
    assert s[14..16] == "in";
  }

  lemma StoiOne()
    ensures IsNumber("1") && Stoi("1") == Success(1)
  {
    var s := "1";
    assert s[..0] == [];
    assert DigitsValue(s) == 1;
  }

  /** With a numeral as the input's value, `atoi(valueof("in"))` is that number. */
  lemma AtoiOfNumeral(ex: Executor)
    requires ValueOf(ex, "in") == "1"
    ensures Evaluate(ex, AtoiCall) == Success(Evaluation(IntValue(1), []))
  {
    AtoiCallFinds();
    AtoiCallParts();
    ValueofIn(ex);
    StoiOne();
    var none: seq<Write> := [];
    EvaluateAtoi(ex, AtoiCall, 0, "1", none);
    assert none + none + none == none;
  }

  /**
   * With a value that is not a numeral, the `atoi` attempt is abandoned and the text
   * falls through to `valueof(`: the whole expression is the input's string value.
   */
  lemma AtoiFallsThrough(ex: Executor)
    requires ValueOf(ex, "in") == "abc"
    ensures Evaluate(ex, AtoiCall) == Success(Evaluation(StringValue("abc"), []))
  {
    AtoiCallFinds();
    AtoiCallParts();
    ValueofIn(ex);
    assert !IsNumber("abc") by { assert !IsDigit("abc"[0]); }
    var none: seq<Write> := [];
    EvaluateAtoiWord(ex, AtoiCall, 0, "abc", none, 5);
    assert none + none == none;
  }

  lemma NumeralFinds()
    ensures Find("1", "defined(", 0) == None && Find("1", "atoi(", 0) == None
    ensures Find("1", "valueof(", 0) == None && Find("1", "output(", 0) == None
  {
    FindAbsentChar("1", "defined(", 0, 0);
    FindAbsentChar("1", "atoi(", 0, 0);
    FindAbsentChar("1", "valueof(", 0, 0);
    FindAbsentChar("1", "output(", 0, 0);
  }

  /** The text `1` evaluates to the number 1. */
  lemma NumeralOne(ex: Executor)
    ensures Evaluate(ex, "1") == Success(Evaluation(IntValue(1), []))
  {
    NumeralFinds();
    StoiOne();
  }

  lemma GuardSplit()
    ensures RemoveSpaces(Guard) == Guard
    ensures FirstOperator(Guard) == Some(0)
    ensures Find(Guard, "==", 0) == Some(19)
    ensures Guard[..19] == AtoiCall && Guard[21..] == "1"
  {
    assert forall i :: 0 <= i < |Guard| ==> Guard[i] != ' ';
    RemoveSpacesKeeps(Guard);
    assert Guard[19..21] == "==";
    FindAtFirstChar(Guard, "==", 0, 19);
  }

  /**
   * The sample guard of the example machine holds, with no writes, when the declared
   * input `in` is selected with value "1".
   */
  lemma WorkedGuard()
    ensures ExecuteTransitionBoolExpr(OnIn("1", Guard)) == Success(Outcome(true, []))
  {
    var ex := OnIn("1", Guard);
    GuardSplit();
    GuardHolds(ex);
  }

  /** The sample guard holds, with no writes, whenever the value read for `in` is "1". */
  lemma GuardHolds(ex: Executor)
    requires ValueOf(ex, "in") == "1"
    ensures EvaluateCond(ex, Guard) == Success(Outcome(true, []))
  {
    var none: seq<Write> := [];
    var one := Evaluation(IntValue(1), none);
    GuardSplit();
    AtoiOfNumeral(ex);
    NumeralOne(ex);
    assert Operators[0] == "==" && CompareExprValues(one.value, one.value, "==");
    CondAtOperator(ex, Guard, 0, 19, one, one);
    assert none + none == none;
  }

  /**
   * The transition text of the example machine, `in [ atoi(valueof("in")) == 1  ]`
   * (MooreMachine.cpp:534), and the guard the parser takes from it, inner spaces kept.
   */
  const SpacedGuard: string := AtoiCall + " == 1"
  const SampleTransition: string := "in [ " + SpacedGuard + "  ]"

  lemma AtoiCallKeeps()
    ensures RemoveSpaces(AtoiCall) == AtoiCall
  {
    Absent("atoi(", ' ');
    Absent(ValueofArg, ' ');
    Absent("))", ' ');
    assert ' ' !in AtoiCall;
    RemoveSpacesKeeps(AtoiCall);
  }

  lemma SpacedGuardSpaces()
    ensures RemoveSpaces(SpacedGuard) == Guard
  {
    var a, none := AtoiCall, "";
    assert SpacedGuard == a + " " + "==" + " " + "1";
    assert Guard == a + none + "==" + none + "1";
    AtoiCallKeeps();
    SpacedPieces();
    RemoveSpacesKeeps("==");
    RemoveSpacesKeeps("1");
    RemoveSpacesOfFive(a, " ", "==", " ", "1");
  }

  lemma SampleHasNoClose()
    ensures ']' !in "in [ " + SpacedGuard + "  "
  {
    Absent("in [ ", ']');
    Absent("atoi(", ']');
    Absent(ValueofArg, ']');
    Absent("))", ']');
    Absent(" == 1", ']');
    Absent("  ", ']');
  }

  lemma SampleBrackets()
    ensures FirstAt(SampleTransition, '[', 3)
    ensures FirstAt(SampleTransition, ']', |SampleTransition| - 1)
    ensures SampleTransition[4..|SampleTransition| - 1] == " " + SpacedGuard + "  "
  {
    var s := SampleTransition;
    var body := "in [ " + SpacedGuard + "  ";
    assert s == body + "]";
    SampleHasNoClose();
    assert forall i :: 0 <= i < |body| ==> s[i] == body[i];
    assert body[4..] == " " + SpacedGuard + "  ";
  }

  lemma StripSampleGuard()
    ensures Strip(" " + SpacedGuard + "  ") == SpacedGuard
  {
    var t := " " + SpacedGuard + "  ";
    DropLeadingSpacesAt(t, 1);
    assert t[1..] == SpacedGuard + "  ";
    DropTrailingSpacesAt(SpacedGuard + "  ", |SpacedGuard|);
    assert (SpacedGuard + "  ")[..|SpacedGuard|] == SpacedGuard;
  }

  /** The example machine's transition parses to the guard `atoi(valueof("in")) == 1`. */
  lemma SampleGuardParses()
    ensures ParseExpr(SampleTransition).boolExpr == SpacedGuard
  {
    SampleBrackets();
    ParseGuard(SampleTransition);
    StripSampleGuard();
  }

  /**
   * Taking that transition: with `in` declared and given "1", the parsed guard, spaces
   * and all, holds and writes nothing (MooreMachine.cpp:534, 550).
   */
  lemma WorkedTransition()
    ensures ExecuteTransitionBoolExpr(OnIn("1", ParseExpr(SampleTransition).boolExpr)) ==
            Success(Outcome(true, []))
  {
    SampleGuardParses();
    var ex := OnIn("1", SpacedGuard);
    SpacedGuardSpaces();
    GuardIgnoresSpaces(ex);
    assert ex.(transitionExpr := Guard) == OnIn("1", Guard);
    WorkedGuard();
  }

  /** A text without `if{` passes the block-stripping loop unchanged. */
  lemma NoIfBlocks(ex: Executor, t: string)
    requires Find(t, "if{", 0).None?
    ensures StripIfBlocks(ex, t) == Success((t, []))
  {
  }

  /**
   * The entry expression `{ output("out", 1) }`, its call `output("out",1)` with the
   * space removed, and the text `{output("out",1)}` the built-in scan sees.
   */
  const Head: string := "output(\"out\","
  const Tail: string := "1)"
  const OutputCall: string := Head + Tail
  const EntryText: string := "{ " + Head + " " + Tail + " }"
  const Braced: string := "{" + OutputCall + "}"

  lemma RemoveSpacesOfFive(a: string, b: string, c: string, d: string, e: string)
    ensures RemoveSpaces(a + b + c + d + e) ==
            RemoveSpaces(a) + RemoveSpaces(b) + RemoveSpaces(c) + RemoveSpaces(d) + RemoveSpaces(e)
  {
    RemoveSpacesAppend(a, b);
    RemoveSpacesAppend(a + b, c);
    RemoveSpacesAppend(a + b + c, d);
    RemoveSpacesAppend(a + b + c + d, e);
  }

  lemma SpacedPieces()
    ensures RemoveSpaces("{ ") == "{" && RemoveSpaces(" }") == "}" && RemoveSpaces(" ") == ""
  {
    assert "{ "[1..] == " ";
    assert " }"[1..] == "}";
  }

  /** Removing the spaces of `{ h t }`, with `h` and `t` free of spaces. */
  lemma BracedSpaces(e: string, h: string, t: string)
    requires e == "{ " + h + " " + t + " }" && RemoveSpaces(h) == h && RemoveSpaces(t) == t
    ensures RemoveSpaces(e) == "{" + (h + t) + "}"
  {
    var none: string := [];
    assert "{" + h + none + t + "}" == "{" + (h + t) + "}";
    SpacedPieces();
    RemoveSpacesOfFive("{ ", h, " ", t, " }");
  }

  lemma PiecesKeep()
    ensures RemoveSpaces(Head) == Head && RemoveSpaces(Tail) == Tail
  {
    Absent(Head, ' ');
    Absent(Tail, ' ');
    RemoveSpacesKeeps(Head);
    RemoveSpacesKeeps(Tail);
  }

  lemma EntrySpaces()
    ensures RemoveSpaces(EntryText) == Braced
  {
    PiecesKeep();
    BracedSpaces(EntryText, Head, Tail);
  }

  lemma OutputCallLacks()
    ensures 'i' !in OutputCall && 'e' !in OutputCall && 'v' !in OutputCall && 'a' !in OutputCall
  {
    var a, b := "output(", "\"out\",";
    assert Head == a + b;
    Absent(a, 'i');
    Absent(a, 'e');
    Absent(a, 'v');
    Absent(a, 'a');
    Absent(b, 'i');
    Absent(b, 'e');
    Absent(b, 'v');
    Absent(b, 'a');
  }

  /** `output("out",1)` is worth -1 and writes "1" to `out`. */
  lemma OutputCallWrites(ex: Executor)
    ensures Evaluate(ex, OutputCall) == Success(Evaluation(IntValue(-1), [Write("out", "1")]))
  {
    assert OutputCall == "output(\"" + "out" + "\"," + "1" + ")";
    EvaluateOutputCall(ex, "out", "1");
  }

  lemma BracedSearches()
    ensures Find(Braced, "if{", 0).None? && Find(Braced, "elapsed", 0).None?
    ensures Find(Braced, "defined", 0).None? && Find(Braced, "valueof", 0).None?
    ensures Find(Braced, "output", 0) == Some(1)
  {
    var s := Braced;
    OutputCallLacks();
    assert 'i' !in s && 'e' !in s && 'v' !in s;
    FindAbsentChar(s, "if{", 0, 0);
    FindAbsentChar(s, "elapsed", 0, 0);
    FindAbsentChar(s, "defined", 1, 0);
    FindAbsentChar(s, "valueof", 0, 0);
    assert s[1..7] == OutputCall[0..6] == "output";
    FindAtFirstChar(s, "output", 0, 1);
  }

  lemma BracedCall()
    ensures CallText(Braced, 1) == OutputCall
  {
    var s := Braced;
    assert forall i :: 0 <= i < 14 ==> OutputCall[i] != ')';
    assert s[15] == ')';
    FindChar(s, ')', 1, 15);
    assert s[1..16] == OutputCall;
  }

  /** The scan of `{output("out",1)}` picks the `output` call. */
  lemma BracedScan()
    ensures LastBuiltinCall(Braced, |BuiltinFuncs|) == OutputCall
  {
    BracedSearches();
    assert BuiltinFuncs[1] == "output" && BuiltinFuncs[2] == "valueof";
    assert BuiltinFuncs[3] == "defined" && BuiltinFuncs[4] == "elapsed";
    LastBuiltinCallPicks(Braced, |BuiltinFuncs|, 1, 1);
    BracedCall();
  }

  /** The entry expression `{ output("out", 1) }` sets output `out` to "1". */
  lemma OutputWrites(ex: Executor)
    ensures StateExprWrites(ex, EntryText) == Success([Write("out", "1")])
  {
    EntrySpaces();
    assert StripIfBlocks(ex, RemoveSpaces(EntryText)) == Success((Braced, [])) by {
      BracedSearches();
      NoIfBlocks(ex, Braced);
    }
    BracedScan();
    OutputCallWrites(ex);
    var w: seq<Write> := [Write("out", "1")];
    StateExprStages(ex, EntryText, Braced, [], OutputCall, Evaluation(IntValue(-1), w));
    assert [] + w == w;
  }

  lemma EmptyBraces()
    ensures RemoveSpaces("{ }") == "{}"
    ensures Find("{}", "if{", 0).None?
    ensures forall k :: 0 <= k < |BuiltinFuncs| ==> Find("{}", BuiltinFuncs[k], 0).None?
  {
    assert "{ "[1..] == " " && "{ }"[1..] == " }";
    SpacedPieces();
    forall k | 0 <= k < |BuiltinFuncs| ensures Find("{}", BuiltinFuncs[k], 0).None? {
      FindAbsentChar("{}", BuiltinFuncs[k], 0, 0);
    }
    FindAbsentChar("{}", "if{", 0, 0);
  }

  /** The entry expression `{ }` changes nothing. */
  lemma EmptyEntry(ex: Executor)
    ensures StateExprWrites(ex, "{ }") == Success([])
  {
    EmptyBraces();
    LastBuiltinCallNone("{}", |BuiltinFuncs|);
    NoIfBlocks(ex, "{}");
    var none: seq<Write> := [];
    StateExprStages(ex, "{ }", "{}", none, "", Evaluation(IntValue(-1), none));
    assert none + none == none;
  }
}
