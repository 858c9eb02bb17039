/**
 * The C++ program text that `CodeGenerator::generateCode` writes for a machine
 * description (src/generateCode.cpp). The description is a plain record instead of a
 * JSON document, and the text is returned instead of being written to a file.
 */
module CodeGenerator {
  import opened Text
  import opened Structs

  /** An entry of the description's `states` array. */
  datatype StateEntry = StateEntry(name: string, outputExpr: string)

  /** An entry of a block's `transitions` array: the label fields and the target's name. */
  datatype TransitionEntry = TransitionEntry(inputEvent: string, boolExpr: string, delay: string, nextState: string)

  /** An entry of the description's `transitions` array: one state's outgoing transitions. */
  datatype TransitionBlock = TransitionBlock(name: string, transitions: seq<TransitionEntry>)

  /** The machine description the generator reads. */
  datatype Description = Description(
    name: string,
    description: string,
    states: seq<StateEntry>,
    inputs: seq<string>,
    variables: seq<Variable>,
    transitions: seq<TransitionBlock>)

  // ---------------------------------------------------------------------------
  // escapeQuotes (lines 4-13)
  // ---------------------------------------------------------------------------

  /** What `escapeQuotes` emits for one character: `\"` for a quote, the character otherwise. */
  function EscapedChar(c: char): string {
    if c == '"' then "\\\"" else [c]
  }

  /** `s` with each quote preceded by a backslash. */
  function Escaped(s: string): string {
    if s == [] then "" else EscapedChar(s[0]) + Escaped(s[1..])
  }

  lemma {:induction false} EscapedAppend(a: string, b: string)
    ensures Escaped(a + b) == Escaped(a) + Escaped(b)
  {
    if a == [] {
      assert a + b == b;
    } else {
      assert (a + b)[0] == a[0];
      assert (a + b)[1..] == a[1..] + b;
      EscapedAppend(a[1..], b);
    }
  }

  /** `escapeQuotes` (lines 4-13): appends each character's escape to `escaped`, in order. */
  method EscapeQuotes(str: string) returns (escaped: string)
    ensures escaped == Escaped(str)
  {
    escaped := "";
    for i := 0 to |str|
      invariant escaped == Escaped(str[..i])
    {
      assert str[..i + 1] == str[..i] + [str[i]];
      EscapedAppend(str[..i], [str[i]]);
      if str[i] == '"' {
        escaped := escaped + "\\\"";
      } else {
        escaped := escaped + [str[i]];
      }
    }
    assert str[..|str|] == str;
  }

  /** Each quote adds one character (lines 9-10). */
  lemma {:induction false} EscapedLength(s: string)
    ensures |Escaped(s)| == |s| + Count(s, '"')
  {
    if s != [] {
      EscapedLength(s[1..]);
    }
  }

  /** Text without quotes is emitted unchanged. */
  lemma {:induction false} EscapedIdentity(s: string)
    requires '"' !in s
    ensures Escaped(s) == s
  {
    if s != [] {
      assert '"' !in s[1..] by {
        assert forall k :: 0 <= k < |s[1..]| ==> s[1..][k] == s[k + 1];
      }
      EscapedIdentity(s[1..]);
      assert s == [s[0]] + s[1..];
    }
  }

  /** Reading `\"` back as a quote and every other character as itself. */
  function Unescaped(t: string): string
    decreases |t|
  {
    if t == [] then ""
    else if |t| >= 2 && t[0] == '\\' && t[1] == '"' then "\"" + Unescaped(t[2..])
    else [t[0]] + Unescaped(t[1..])
  }

  /** Escaped text never starts with a bare quote. */
  lemma EscapedHead(s: string)
    requires s != []
    ensures Escaped(s) != [] && Escaped(s)[0] != '"'
  {
  }

  /** Escaping loses nothing: reading the escapes back gives the original text. */
  lemma {:induction false} EscapedRoundTrip(s: string)
    ensures Unescaped(Escaped(s)) == s
  {
    if s != [] {
      var rest := Escaped(s[1..]);
      EscapedRoundTrip(s[1..]);
      if s[0] == '"' {
        assert Escaped(s) == "\\\"" + rest;
        assert Escaped(s)[2..] == rest;
      } else {
        assert Escaped(s) == [s[0]] + rest;
        assert Escaped(s)[1..] == rest;
        if s[0] == '\\' && s[1..] != [] {
          EscapedHead(s[1..]);
        }
      }
      assert s == [s[0]] + s[1..];
    }
  }

  // ---------------------------------------------------------------------------
  // Comma-separated listings (lines 56-100)
  // ---------------------------------------------------------------------------

  /**
   * The first `k` lines the listing loops write for `items`: the item, a comma unless it
   * is the last of all `items`, and a newline.
   */
  function ListLines(items: seq<string>, k: nat): string
    requires k <= |items|
  {
    if k == 0 then ""
    else ListLines(items, k - 1) + items[k - 1] + (if k < |items| then "," else "") + "\n"
  }

  /** `xs` with `sep` between consecutive elements. */
  function Join(xs: seq<string>, sep: string): string {
    if xs == [] then ""
    else if |xs| == 1 then xs[0]
    else xs[0] + sep + Join(xs[1..], sep)
  }

  lemma {:induction false} JoinSnoc(xs: seq<string>, x: string, sep: string)
    requires xs != []
    ensures Join(xs + [x], sep) == Join(xs, sep) + sep + x
  {
    assert (xs + [x])[0] == xs[0];
    if |xs| == 1 {
      assert (xs + [x])[1..] == [x];
    } else {
      assert (xs + [x])[1..] == xs[1..] + [x];
      JoinSnoc(xs[1..], x, sep);
    }
  }

  lemma {:induction false} ListLinesPrefix(items: seq<string>, k: nat)
    requires 0 < k <= |items|
    ensures ListLines(items, k) == Join(items[..k], ",\n") + (if k < |items| then ",\n" else "\n")
  {
    if k == 1 {
      assert items[..1] == [items[0]];
    } else {
      ListLinesPrefix(items, k - 1);
      assert items[..k] == items[..k - 1] + [items[k - 1]];
      JoinSnoc(items[..k - 1], items[k - 1], ",\n");
    }
  }

  /** A listing is its items joined by `,` and a newline, ending in a newline: no comma after the last. */
  lemma ListLinesJoin(items: seq<string>)
    ensures items == [] ==> ListLines(items, 0) == ""
    ensures items != [] ==> ListLines(items, |items|) == Join(items, ",\n") + "\n"
  {
    if items != [] {
      ListLinesPrefix(items, |items|);
      assert items[..|items|] == items;
    }
  }

  /**
   * The loop the enums and the variable table share (lines 57-65, 69-77, 87-99): writes
   * each item followed by a comma when another follows, then a newline.
   */
  method EmitList(items: seq<string>) returns (text: string)
    ensures text == ListLines(items, |items|)
    ensures items == [] ==> text == ""
    ensures items != [] ==> text == Join(items, ",\n") + "\n"
  {
    text := "";
    for i := 0 to |items|
      invariant text == ListLines(items, i)
    {
      text := text + items[i];
      if i < |items| - 1 {
        text := text + ",";
      }
      text := text + "\n";
    }
    ListLinesJoin(items);
  }

  /** The enum members: each name indented by three spaces (lines 59, 71). */
  function Indented(names: seq<string>): (r: seq<string>)
    ensures |r| == |names| && forall i :: 0 <= i < |names| ==> r[i] == "   " + names[i]
  {
    if names == [] then [] else ["   " + names[0]] + Indented(names[1..])
  }

  /** An `enum` declaration listing `names` (lines 56-66, 68-78). */
  function EnumHead(title: string): string {
    "enum " + title + " {\n"
  }

  const BlockEnd: string := "};\n\n"

  function EnumBlock(title: string, names: seq<string>): string {
    EnumHead(title) + ListLines(Indented(names), |names|) + BlockEnd
  }

  /** The initialiser of one variable (line 93). */
  function VariableEntry(v: Variable): string {
    "   {\"" + v.varType + "\", \"" + v.name + "\", \"" + v.value + "\"}"
  }

  function VariableEntries(vs: seq<Variable>): (r: seq<string>)
    ensures |r| == |vs| && forall i :: 0 <= i < |vs| ==> r[i] == VariableEntry(vs[i])
  {
    if vs == [] then [] else [VariableEntry(vs[0])] + VariableEntries(vs[1..])
  }

  /** The `variables` table (lines 86-100). */
  const TableHead: string := "vector<Variable> variables = {\n"

  function VariableTable(vs: seq<Variable>): string {
    TableHead + ListLines(VariableEntries(vs), |vs|) + BlockEnd
  }

  // ---------------------------------------------------------------------------
  // processInput cases (lines 111-168)
  // ---------------------------------------------------------------------------

  /** Moving to `next` and running its output, at indentation `pad` (lines 133-134, 139-140, 156-157). */
  function MoveTo(pad: string, next: string): string {
    pad + "currentState = " + next + ";\n" + pad + "processOutput();\n"
  }

  /** The test of the chosen input (line 129). */
  function InputTest(inputEvent: string): string {
    "            if (input == \"" + inputEvent + "\") {\n"
  }

  /** The test of the guard (line 132). */
  function GuardTest(boolExpr: string): string {
    "                if (" + boolExpr + ") {\n"
  }

  const GuardEnd: string := "                }\n"
  const InputEnd: string := "            }\n"

  /** The head of the block that waits for the delay (lines 146-152). */
  function DelayLookup(delay: string): string {
    "            int delayInMs = 0;\n" +
    "            for (const auto &var : variables) {\n" +
    "                if (var.name == \"" + delay + "\") {\n" +
    "                    delayInMs = stoi(var.value);\n" +
    "                    break;\n" +
    "                }\n" +
    "            }\n"
  }

  /** The sleep and the messages around it (lines 153-155). */
  function DelayWait(next: string): string {
    "            cout << \"DELAY started...\\n\";\n" +
    "            this_thread::sleep_for(chrono::milliseconds(delayInMs));\n" +
    "            cout << \"DELAY finished. Transitioning to state " + next + "\\n\";\n"
  }

  /** What one transition contributes to its state's case (lines 122-158), in the order it is written. */
  function TransitionCode(t: TransitionEntry): string {
    if t.inputEvent != "" && t.boolExpr != "" then
      InputTest(t.inputEvent) + GuardTest(t.boolExpr) + MoveTo("                    ", t.nextState) + GuardEnd + InputEnd
    else if t.inputEvent != "" then
      InputTest(t.inputEvent) + MoveTo("                ", t.nextState) + InputEnd
    else if t.delay != "" then
      DelayLookup(t.delay) + DelayWait(t.nextState) + MoveTo("            ", t.nextState) + "\n"
    else ""
  }

  /** An unguarded move does not begin with a guard test: they differ at their 17th character. */
  lemma MoveIsNotGuard(e: string, n: string, rest: string)
    ensures !(InputTest(e) + GuardTest("") <= InputTest(e) + MoveTo("                ", n) + rest)
  {
    var k := |InputTest(e)| + 16;
    assert (InputTest(e) + GuardTest(""))[k] == GuardTest("")[16] == 'i';
    assert (InputTest(e) + MoveTo("                ", n) + rest)[k] == MoveTo("                ", n)[16] == 'c';
  }

  /** Only a transition with neither an input nor a delay emits nothing. */
  lemma TransitionCodeEmpty(t: TransitionEntry)
    ensures TransitionCode(t) == "" <==> t.inputEvent == "" && t.delay == ""
  {
    if t.inputEvent != "" {
      assert |InputTest(t.inputEvent)| > 0;
    } else if t.delay != "" {
      assert |DelayLookup(t.delay)| > 0;
    }
  }

  /**
   * A transition on an input opens with the test of that input, and the test of its guard
   * follows exactly when it has a guard.
   */
  lemma InputTransitionCode(t: TransitionEntry)
    requires t.inputEvent != ""
    ensures InputTest(t.inputEvent) <= TransitionCode(t)
    ensures InputTest(t.inputEvent) + GuardTest(t.boolExpr) <= TransitionCode(t) <==> t.boolExpr != ""
  {
    var it := InputTest(t.inputEvent);
    var code := TransitionCode(t);
    if t.boolExpr != "" {
      var gt := GuardTest(t.boolExpr);
      assert code[..|it|] == it && code[..|it + gt|] == it + gt;
    } else {
      assert code[..|it|] == it;
      MoveIsNotGuard(t.inputEvent, t.nextState, InputEnd);
    }
  }

  /** A transition with a delay and no input opens with the lookup of the delay's variable. */
  lemma DelayTransitionCode(t: TransitionEntry)
    requires t.inputEvent == "" && t.delay != ""
    ensures DelayLookup(t.delay) <= TransitionCode(t)
  {
    var dl := DelayLookup(t.delay);
    var rest := DelayWait(t.nextState) + MoveTo("            ", t.nextState) + "\n";
    assert TransitionCode(t) == dl + rest;
    assert (dl + rest)[..|dl|] == dl;
  }

  /** The first `k` transitions' code, in order. */
  function TransitionsCode(ts: seq<TransitionEntry>, k: nat): string
    requires k <= |ts|
  {
    if k == 0 then "" else TransitionsCode(ts, k - 1) + TransitionCode(ts[k - 1])
  }

  /** The opening of a `case` (lines 117-118, 175-176). */
  function CaseHead(name: string): string {
    "        case " + name + ":\n" + "        {\n"
  }

  const CaseEnd: string := "            break;\n" + "        }\n"

  /** The `case` of one state (lines 116-162). */
  function CaseCode(b: TransitionBlock): string {
    CaseHead(b.name) + TransitionsCode(b.transitions, |b.transitions|) + CaseEnd
  }

  /** The cases of the first `k` blocks, in order. */
  function CasesCode(bs: seq<TransitionBlock>, k: nat): string
    requires k <= |bs|
  {
    if k == 0 then "" else CasesCode(bs, k - 1) + CaseCode(bs[k - 1])
  }

  /** Lines 122-158 for one transition, written piece by piece. */
  method EmitTransition(t: TransitionEntry) returns (text: string)
    ensures text == TransitionCode(t)
  {
    text := "";
    if t.inputEvent != "" {
      text := InputTest(t.inputEvent);
      if t.boolExpr != "" {
        text := text + GuardTest(t.boolExpr);
        text := text + MoveTo("                    ", t.nextState);
        text := text + GuardEnd;
      } else {
        text := text + MoveTo("                ", t.nextState);
      }
      text := text + InputEnd;
    } else if t.delay != "" {
      text := DelayLookup(t.delay);
      text := text + DelayWait(t.nextState);
      text := text + MoveTo("            ", t.nextState);
      text := text + "\n";
    }
  }

  /** The inner loop of lines 120-159: each transition's code, in order. */
  method EmitTransitions(ts: seq<TransitionEntry>) returns (text: string)
    ensures text == TransitionsCode(ts, |ts|)
  {
    text := "";
    for j := 0 to |ts|
      invariant text == TransitionsCode(ts, j)
    {
      var piece := EmitTransition(ts[j]);
      text := text + piece;
    }
  }

  /** The outer loop of lines 114-163: one `case` per block, in order. */
  method EmitCases(bs: seq<TransitionBlock>) returns (text: string)
    ensures text == CasesCode(bs, |bs|)
  {
    text := "";
    for i := 0 to |bs|
      invariant text == CasesCode(bs, i)
    {
      var piece := CaseHead(bs[i].name);
      var body := EmitTransitions(bs[i].transitions);
      piece := piece + body;
      piece := piece + CaseEnd;
      text := text + piece;
    }
  }

  // ---------------------------------------------------------------------------
  // processOutput cases (lines 31-34, 171-182)
  // ---------------------------------------------------------------------------

  /** The state names, in order (lines 26-29). */
  function Names(states: seq<StateEntry>): (r: seq<string>)
    ensures |r| == |states| && forall i :: 0 <= i < |states| ==> r[i] == states[i].name
  {
    if states == [] then [] else Names(states[..|states| - 1]) + [states[|states| - 1].name]
  }

  /** `stateOutputs` after its loop (lines 31-34): a later state with the same name overwrites. */
  function OutputsByName(states: seq<StateEntry>): map<string, string> {
    if states == [] then map[]
    else OutputsByName(states[..|states| - 1])[states[|states| - 1].name := states[|states| - 1].outputExpr]
  }

  /** Every state name has an entry, and it holds the output of the last state of that name. */
  lemma {:induction false} OutputsByNameLast(states: seq<StateEntry>)
    ensures forall n :: n in OutputsByName(states) <==> exists i :: 0 <= i < |states| && states[i].name == n
    ensures forall i :: 0 <= i < |states| && (forall j :: i < j < |states| ==> states[j].name != states[i].name) ==>
      OutputsByName(states)[states[i].name] == states[i].outputExpr
  {
    if states != [] {
      var init := states[..|states| - 1];
      OutputsByNameLast(init);
      forall n | n in OutputsByName(states)
        ensures exists i :: 0 <= i < |states| && states[i].name == n
      {
        if n != states[|states| - 1].name {
          assert n in OutputsByName(init);
          var i :| 0 <= i < |init| && init[i].name == n;
          assert states[i].name == n;
        }
      }
      forall n | exists i :: 0 <= i < |states| && states[i].name == n
        ensures n in OutputsByName(states)
      {
        var i :| 0 <= i < |states| && states[i].name == n;
        if i < |init| {
          assert init[i].name == n;
        }
      }
      forall i | 0 <= i < |states| && (forall j :: i < j < |states| ==> states[j].name != states[i].name)
        ensures OutputsByName(states)[states[i].name] == states[i].outputExpr
      {
        if i < |init| {
          assert init[i] == states[i];
        }
      }
    }
  }

  /** The loop of lines 31-34. */
  method CollectOutputs(states: seq<StateEntry>) returns (stateOutputs: map<string, string>)
    ensures stateOutputs == OutputsByName(states)
  {
    stateOutputs := map[];
    for i := 0 to |states|
      invariant stateOutputs == OutputsByName(states[..i])
    {
      assert states[..i + 1][..i] == states[..i];
      stateOutputs := stateOutputs[states[i].name := states[i].outputExpr];
    }
    assert states[..|states|] == states;
  }

  /** The line printing a state's output expression (line 177). */
  function OutputLine(name: string, escaped: string): string {
    "            cout << \"Output expression for state " + name + " is: " + escaped + "\" << endl;\n"
  }

  /** The case printing one state's output expression, quotes escaped (lines 175-179). */
  function OutputCase(name: string, outputExpr: string): string {
    CaseHead(name) + OutputLine(name, Escaped(outputExpr)) + CaseEnd
  }

  /** The cases for the first `k` names, each reading its output from `outputs`. */
  function OutputCases(names: seq<string>, outputs: map<string, string>, k: nat): string
    requires k <= |names| && forall i :: 0 <= i < |names| ==> names[i] in outputs
  {
    if k == 0 then "" else OutputCases(names, outputs, k - 1) + OutputCase(names[k - 1], outputs[names[k - 1]])
  }

  /** The loop of lines 173-180. */
  method EmitOutputCases(names: seq<string>, outputs: map<string, string>) returns (text: string)
    requires forall i :: 0 <= i < |names| ==> names[i] in outputs
    ensures text == OutputCases(names, outputs, |names|)
  {
    text := "";
    for i := 0 to |names|
      invariant text == OutputCases(names, outputs, i)
    {
      var escaped := EscapeQuotes(outputs[names[i]]);
      var piece := CaseHead(names[i]);
      piece := piece + OutputLine(names[i], escaped);
      piece := piece + CaseEnd;
      text := text + piece;
    }
  }

  // ---------------------------------------------------------------------------
  // The whole program (lines 15-190)
  // ---------------------------------------------------------------------------

  const Includes: string :=
    "#include <iostream>\n" + "#include <string>\n" + "#include <chrono>\n" +
    "#include <thread>\n" + "#include <vector>\n\n" + "using namespace std;\n\n"

  const VariableStruct: string :=
    "struct Variable {\n" + "   string type;\n" + "   string name;\n" + "   string value;\n" + "};\n\n"

  const ValueofCode: string :=
    "string valueof(const string &inputName, const string &value) {\n" +
    "    if (inputName == \"in\") {\n" + "        return value;\n" + "    }\n" +
    "    return \"\";\n" + "}\n\n"

  const InputHead: string :=
    "void processInput(const string &input, const string &value) {\n" + "    switch(currentState) {\n"

  const InputTail: string :=
    "        default:\n" + "            break;\n" + "    }\n" + "}\n\n"

  const OutputHead: string := "void processOutput() {\n" + "    switch(currentState) {\n"

  const OutputTail: string := "    }\n" + "}\n\n"

  const MainCode: string := "int main() {\n" + "   //TODO\n" + "}\n"

  /** The line initialising the generated `currentState` (line 102). */
  function InitialState(first: string): string {
    "States currentState = " + first + ";\n\n"
  }

  /** The generated `processInput` function (lines 111-168). */
  function ProcessInputCode(bs: seq<TransitionBlock>): string {
    InputHead + CasesCode(bs, |bs|) + InputTail
  }

  /** The generated `processOutput` function (lines 171-182), one case per listed name. */
  function ProcessOutputCode(states: seq<StateEntry>): string
  {
    OutputsByNameLast(states);
    OutputHead + OutputCases(Names(states), OutputsByName(states), |states|) + OutputTail
  }

  /** Everything the program text holds before the initial state line (lines 48-100). */
  function Declarations(d: Description): string {
    Includes + EnumBlock("States", Names(d.states)) + EnumBlock("Inputs", d.inputs) +
    VariableStruct + VariableTable(d.variables)
  }

  /** The program text for `d`. */
  function Program(d: Description): string
    requires d.states != []
  {
    Declarations(d) + InitialState(d.states[0].name) + ValueofCode +
    ProcessInputCode(d.transitions) + ProcessOutputCode(d.states) + MainCode
  }

  /** A piece of a concatenation occurs where the pieces before it end. */
  lemma OccursAfter(a: string, p: string, b: string, c: string, e: string, f: string)
    ensures OccursAt(a + p + b + c + e + f, p, |a|)
  {
    var s := a + p + b + c + e + f;
    assert s == (a + p) + (b + c + e + f);
    assert (a + p)[|a|..] == p;
  }

  /** The generated machine starts in the first listed state (line 102). */
  lemma StartsInFirstState(d: Description)
    requires d.states != []
    ensures OccursAt(Program(d), InitialState(d.states[0].name), |Declarations(d)|)
  {
    OccursAfter(Declarations(d), InitialState(d.states[0].name), ValueofCode,
      ProcessInputCode(d.transitions), ProcessOutputCode(d.states), MainCode);
  }

  /** An enum lists its names in order, three spaces in, joined by commas (lines 56-78). */
  lemma EnumListsNames(title: string, names: seq<string>)
    ensures names == [] ==> EnumBlock(title, names) == EnumHead(title) + BlockEnd
    ensures names != [] ==>
      EnumBlock(title, names) == EnumHead(title) + (Join(Indented(names), ",\n") + "\n") + BlockEnd
  {
    ListLinesJoin(Indented(names));
  }

  /** The variable table lists one initialiser per variable, in order, joined by commas (lines 86-100). */
  lemma VariableTableLists(vs: seq<Variable>)
    ensures vs == [] ==> VariableTable(vs) == TableHead + BlockEnd
    ensures vs != [] ==>
      VariableTable(vs) == TableHead + (Join(VariableEntries(vs), ",\n") + "\n") + BlockEnd
  {
    ListLinesJoin(VariableEntries(vs));
  }

  /**
   * `generateCode` (lines 15-190) without the file: appends the program's parts in the
   * order the source writes them. The first state's name is read unguarded (line 102),
   * so a description without states is excluded.
   */
  method GenerateCode(d: Description) returns (code: string)
    requires d.states != []
    ensures code == Program(d)
  {
    var stateNames: seq<string> := [];
    for i := 0 to |d.states|
      invariant stateNames == Names(d.states[..i])
    {
      assert d.states[..i + 1][..i] == d.states[..i];
      stateNames := stateNames + [d.states[i].name];
    }
    assert d.states[..|d.states|] == d.states;
    var stateOutputs := CollectOutputs(d.states);
    OutputsByNameLast(d.states);

    code := Includes;
    var stateList := EmitList(Indented(stateNames));
    code := code + (EnumHead("States") + stateList + BlockEnd);
    var inputList := EmitList(Indented(d.inputs));
    code := code + (EnumHead("Inputs") + inputList + BlockEnd);
    code := code + VariableStruct;
    var variableList := EmitList(VariableEntries(d.variables));
    code := code + (TableHead + variableList + BlockEnd);
    code := code + InitialState(stateNames[0]);
    code := code + ValueofCode;
    var cases := EmitCases(d.transitions);
    code := code + (InputHead + cases + InputTail);
    var outputCases := EmitOutputCases(stateNames, stateOutputs);
    code := code + (OutputHead + outputCases + OutputTail);
    code := code + MainCode;
  }
}
