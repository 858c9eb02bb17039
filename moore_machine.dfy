/**
 * The `MooreMachine` class (src/MooreMachine.cpp, src/MooreMachine.h): the state table
 * and the build operations, one simulation step, and the advisory graph checks.
 */
module Machine {
  import opened Wrappers
  import opened Text
  import opened Structs
  import opened TransitionSyntax
  import opened CodeExecutor

  /** The type names a variable may be declared with (MooreMachine.h:41). */
  const AllowedTypes: seq<string> := ["int", "string", "char", "bool", "double", "float"]

  /** `isValidType`: linear search of `AllowedTypes`. */
  function IsValidType(varType: string): (r: bool)
    ensures r <==> varType == "int" || varType == "string" || varType == "char" ||
                   varType == "bool" || varType == "double" || varType == "float"
  {
    Contains(AllowedTypes, varType)
  }

  /** No two variables share a name. */
  predicate DistinctNames(vars: seq<Variable>) {
    forall i, j :: 0 <= i < j < |vars| ==> vars[i].name != vars[j].name
  }

  /** Every target of `table` is an index into a state list of length `n`. */
  predicate TargetsIn(table: map<TransitionExpression, int>, n: int) {
    forall e :: e in table ==> 0 <= table[e] < n
  }

  /** Every transition of every state leads to a state of the list. */
  predicate Closed(states: seq<State>) {
    forall i :: 0 <= i < |states| ==> TargetsIn(states[i].transitions, |states|)
  }

  /** The state indices an edge leads to from state `u`. */
  function Targets(states: seq<State>, u: int): set<int>
    requires 0 <= u < |states|
  {
    set e | e in states[u].transitions :: states[u].transitions[e]
  }

  /** `p` is a walk along transitions through states of the list. */
  ghost predicate IsPath(states: seq<State>, p: seq<int>) {
    p != [] &&
    (forall i :: 0 <= i < |p| ==> 0 <= p[i] < |states|) &&
    (forall i :: 0 <= i < |p| - 1 ==> p[i + 1] in Targets(states, p[i]))
  }

  /** State `b` can be reached from state `a` by following transitions. */
  ghost predicate Reachable(states: seq<State>, a: int, b: int) {
    exists p :: IsPath(states, p) && p[0] == a && p[|p| - 1] == b
  }

  /** The simulation's view of one `processInput` call: declared inputs, chosen input and value. */
  datatype Stimulus = Stimulus(inputs: seq<string>, name: string, value: string)

  /** The part of the machine a simulation step changes. */
  datatype Config = Config(current: int, output: map<string, string>)

  /** How far a scan of a transition table got: the configuration, and the error that stopped it. */
  datatype Scan = Scan(config: Config, failure: Option<Error>)

  /** The executor `processInput` builds for transition `e` (line 210). */
  function ExecutorFor(stim: Stimulus, e: TransitionExpression): Executor {
    Executor(stim.inputs, e.boolExpr, stim.name, stim.value)
  }

  /** Transition `e` is taken: its event is the input, its guard is non-empty and holds. */
  predicate Fires(stim: Stimulus, e: TransitionExpression) {
    e.inputEvent == stim.name && e.boolExpr != "" &&
    ExecuteTransitionBoolExpr(ExecutorFor(stim, e)).Success? &&
    ExecuteTransitionBoolExpr(ExecutorFor(stim, e)).value.holds
  }

  /**
   * One pass of the loop body at lines 202-224 for transition `e`: an entry for another
   * input or with an empty guard does nothing; otherwise the guard's writes are applied and,
   * if it holds, the machine moves to the target and runs the target's entry expression.
   */
  function Visit(states: seq<State>, stim: Stimulus, table: map<TransitionExpression, int>,
                 e: TransitionExpression, c: Config): (r: Scan)
    requires e in table && TargetsIn(table, |states|)
    ensures r.config.current == c.current || (Fires(stim, e) && r.config.current == table[e])
    ensures !(e.inputEvent == stim.name && e.boolExpr != "") ==> r == Scan(c, None)
  {
    if e.inputEvent != stim.name || e.boolExpr == "" then Scan(c, None)
    else
      var ex := ExecutorFor(stim, e);
      match ExecuteTransitionBoolExpr(ex)
      case Failure(err) => Scan(c, Some(err))
      case Success(o) =>
        var out := ApplyWrites(c.output, o.writes);
        if !o.holds then Scan(Config(c.current, out), None)
        else
          var next := table[e];
          match StateExprWrites(ex, states[next].outputExpr)
          case Failure(err) => Scan(Config(next, out), Some(err))
          case Success(ws) => Scan(Config(next, ApplyWrites(out, ws)), None)
  }

  /** The loop at lines 202-224 over the entries of `table` in the enumeration order `order`. */
  function Run(states: seq<State>, stim: Stimulus, table: map<TransitionExpression, int>,
               order: seq<TransitionExpression>, c: Config): Scan
    requires forall k :: 0 <= k < |order| ==> order[k] in table
    requires TargetsIn(table, |states|)
    decreases |order|
  {
    if order == [] then Scan(c, None)
    else
      var prev := Run(states, stim, table, order[..|order| - 1], c);
      if prev.failure.Some? then prev
      else Visit(states, stim, table, order[|order| - 1], prev.config)
  }

  /**
   * Whatever the enumeration order, the state after the scan is the one it started in or
   * the target of a transition that fires.
   */
  lemma {:induction false} RunTarget(states: seq<State>, stim: Stimulus, table: map<TransitionExpression, int>,
                                     order: seq<TransitionExpression>, c: Config)
    requires forall k :: 0 <= k < |order| ==> order[k] in table
    requires TargetsIn(table, |states|)
    ensures var r := Run(states, stim, table, order, c).config.current;
      r == c.current || exists e :: e in table && Fires(stim, e) && r == table[e]
    decreases |order|
  {
    if order != [] {
      RunTarget(states, stim, table, order[..|order| - 1], c);
    }
  }

  /** Transitions for other inputs, or with an empty guard (only a delay), never change anything. */
  lemma {:induction false} RunQuiet(states: seq<State>, stim: Stimulus, table: map<TransitionExpression, int>,
                                    order: seq<TransitionExpression>, c: Config)
    requires forall k :: 0 <= k < |order| ==> order[k] in table
    requires TargetsIn(table, |states|)
    requires forall k :: 0 <= k < |order| ==> order[k].inputEvent != stim.name || order[k].boolExpr == ""
    ensures Run(states, stim, table, order, c) == Scan(c, None)
    decreases |order|
  {
    if order != [] {
      RunQuiet(states, stim, table, order[..|order| - 1], c);
    }
  }

  /** Running one more entry is visiting it after the shorter run, unless that one stopped. */
  lemma RunSnoc(states: seq<State>, stim: Stimulus, table: map<TransitionExpression, int>,
                order: seq<TransitionExpression>, e: TransitionExpression, c: Config)
    requires forall k :: 0 <= k < |order| ==> order[k] in table
    requires e in table && TargetsIn(table, |states|)
    ensures var prev := Run(states, stim, table, order, c);
      Run(states, stim, table, order + [e], c) ==
        if prev.failure.Some? then prev else Visit(states, stim, table, e, prev.config)
  {
    assert (order + [e])[..|order|] == order;
  }

  /**
   * A scan in two stretches is the second stretch resumed from where the first ended,
   * unless the first stopped at an error, which then ends the whole scan.
   */
  lemma {:induction false} RunAppend(states: seq<State>, stim: Stimulus, table: map<TransitionExpression, int>,
                                     first: seq<TransitionExpression>, second: seq<TransitionExpression>, c: Config)
    requires forall k :: 0 <= k < |first| ==> first[k] in table
    requires forall k :: 0 <= k < |second| ==> second[k] in table
    requires TargetsIn(table, |states|)
    ensures var mid := Run(states, stim, table, first, c);
      Run(states, stim, table, first + second, c) ==
        if mid.failure.Some? then mid else Run(states, stim, table, second, mid.config)
    decreases |second|
  {
    var mid := Run(states, stim, table, first, c);
    if second == [] {
      assert first + second == first;
    } else {
      var init := second[..|second| - 1];
      var e := second[|second| - 1];
      assert first + second == (first + init) + [e];
      assert second == init + [e];
      RunAppend(states, stim, table, first, init, c);
      RunSnoc(states, stim, table, first + init, e, c);
      if mid.failure.None? {
        RunSnoc(states, stim, table, init, e, mid.config);
      }
    }
  }

  /** The integers `0 .. n - 1`. */
  function Below(n: nat): (r: set<int>)
    ensures forall i :: i in r <==> 0 <= i < n
  {
    if n == 0 then {} else Below(n - 1) + {n - 1}
  }

  /** `order` lists the entries of `table`, each once: an enumeration order of the map. */
  predicate Enumerates(order: seq<TransitionExpression>, table: map<TransitionExpression, int>) {
    NoDuplicates(order) &&
    (forall k :: 0 <= k < |order| ==> order[k] in table) &&
    (forall e :: e in table ==> e in order)
  }

  /** A walk from `b` extends backwards over an edge from `a` into `b`. */
  lemma ReachableStep(states: seq<State>, a: int, b: int, c: int)
    requires 0 <= a < |states| && b in Targets(states, a) && Reachable(states, b, c)
    ensures Reachable(states, a, c)
  {
    var p :| IsPath(states, p) && p[0] == b && p[|p| - 1] == c;
    var q := [a] + p;
    assert q[1..] == p;
    assert IsPath(states, q);
  }

  /** Every state is reachable from itself. */
  lemma ReachableSelf(states: seq<State>, a: int)
    requires 0 <= a < |states|
    ensures Reachable(states, a, a)
  {
    assert IsPath(states, [a]);
  }

  /**
   * A set of states that contains `a` and holds the targets of each of its members holds
   * every state reachable from `a`.
   */
  lemma {:induction false} ClosedSetHoldsReachable(states: seq<State>, s: set<int>, a: int, b: int)
    requires a in s && Reachable(states, a, b)
    requires forall v :: v in s ==> 0 <= v < |states| && Targets(states, v) <= s
    ensures b in s
  {
    var p :| IsPath(states, p) && p[0] == a && p[|p| - 1] == b;
    var k := 0;
    while k < |p| - 1
      invariant 0 <= k < |p| && p[k] in s
    {
      assert p[k + 1] in Targets(states, p[k]);
      k := k + 1;
    }
  }

  /** States `i` and `j` are interchangeable: same entry expression and same table (lines 277-278). */
  predicate Equivalent(a: State, b: State) {
    a.outputExpr == b.outputExpr && a.transitions == b.transitions
  }

  /** `(i, j)` comes before `(k, l)` in the order the nested loops of `checkRedundancy` visit pairs. */
  predicate PairBefore(x: (int, int), y: (int, int)) {
    x.0 < y.0 || (x.0 == y.0 && x.1 < y.1)
  }

  /**
   * A Moore machine under construction and simulation. `startState` is -1 until a start
   * state is added; `currentState` is left uninitialised by the constructor and starts at
   * -1 here.
   */
  class MooreMachine {
    var states: seq<State>
    var currentState: int
    var startState: int
    var variables: seq<Variable>
    var inputs: seq<string>
    var outputs: seq<string>
    var currentOutput: map<string, string>

    /**
     * What the build operations keep: the start index is -1 or a state, inputs and outputs
     * are never duplicated, and variables have allowed types and distinct names.
     */
    predicate Valid()
      reads this
    {
      -1 <= startState < |states| &&
      (startState != -1 ==> 0 <= currentState < |states|) &&
      NoDuplicates(inputs) && NoDuplicates(outputs) &&
      DistinctNames(variables) &&
      (forall i :: 0 <= i < |variables| ==> variables[i].varType in AllowedTypes)
    }

    /** Every transition leads to a state of the machine and the current state is one. */
    predicate Runnable()
      reads this
    {
      Closed(states) && 0 <= currentState < |states|
    }

    constructor()
      ensures Valid()
      ensures states == [] && startState == -1 && currentState == -1
      ensures variables == [] && inputs == [] && outputs == [] && currentOutput == map[]
    {
      states := [];
      currentState := -1;
      startState := -1;
      variables := [];
      inputs := [];
      outputs := [];
      currentOutput := map[];
    }

    /** `isInputValid` (lines 232-240): the input is declared. */
    function IsInputValid(inputName: string): (r: bool)
      reads this
      ensures r <==> inputName in inputs
    {
      Contains(inputs, inputName)
    }

    /**
     * `addStartState` (lines 108-122): only while no start state exists, appends the state
     * and makes it the start and the current state; otherwise changes nothing and yields -1.
     */
    method AddStartState(name: string, outputExpr: string, transitions: map<TransitionExpression, int>)
      returns (index: int)
      requires Valid()
      modifies this
      ensures Valid()
      ensures old(startState) == -1 ==>
        index == old(|states|) && states == old(states) + [State(name, outputExpr, transitions)] &&
        startState == index && currentState == index
      ensures old(startState) != -1 ==>
        index == -1 && states == old(states) && startState == old(startState) &&
        currentState == old(currentState)
      ensures variables == old(variables) && inputs == old(inputs) && outputs == old(outputs)
      ensures currentOutput == old(currentOutput)
    {
      if startState == -1 {
        var stateIndex := |states|;
        states := states + [State(name, outputExpr, transitions)];
        startState, currentState := stateIndex, stateIndex;
        return stateIndex;
      } else {
        return -1;
      }
    }

    /** `addState` (lines 124-128): appends the state and yields its index. */
    method AddState(name: string, outputExpr: string, transitions: map<TransitionExpression, int>)
      returns (index: int)
      requires Valid()
      modifies this
      ensures Valid()
      ensures index == old(|states|) && states == old(states) + [State(name, outputExpr, transitions)]
      ensures startState == old(startState) && currentState == old(currentState)
      ensures variables == old(variables) && inputs == old(inputs) && outputs == old(outputs)
      ensures currentOutput == old(currentOutput)
    {
      states := states + [State(name, outputExpr, transitions)];
      return |states| - 1;
    }

    /**
     * `addTransition` (lines 130-132): the parsed label of state `fromState` now leads to
     * `toState`, replacing an entry with an equal label; nothing else changes.
     */
    method AddTransition(fromState: int, expr: string, toState: int)
      requires Valid() && 0 <= fromState < |states|
      modifies this
      ensures Valid()
      ensures |states| == old(|states|)
      ensures states[fromState] == old(states[fromState]).(transitions :=
                old(states[fromState]).transitions[ParseExpr(expr) := toState])
      ensures forall i :: 0 <= i < |states| && i != fromState ==> states[i] == old(states[i])
      ensures old(Closed(states)) && 0 <= toState < |states| ==> Closed(states)
      ensures startState == old(startState) && currentState == old(currentState)
      ensures variables == old(variables) && inputs == old(inputs) && outputs == old(outputs)
      ensures currentOutput == old(currentOutput)
    {
      var s := states[fromState];
      states := states[fromState := s.(transitions := s.transitions[ParseExpr(expr) := toState])];
    }

    /**
     * `addVariable` (lines 136-149): appends the variable unless its type is not allowed
     * or its name is taken, in which case nothing changes.
     */
    method AddVariable(varType: string, name: string, value: string)
      requires Valid()
      modifies this
      ensures Valid()
      ensures (IsValidType(varType) && forall v :: v in old(variables) ==> v.name != name) ==>
                variables == old(variables) + [Variable(varType, name, value)]
      ensures !(IsValidType(varType) && forall v :: v in old(variables) ==> v.name != name) ==>
                variables == old(variables)
      ensures states == old(states) && startState == old(startState) && currentState == old(currentState)
      ensures inputs == old(inputs) && outputs == old(outputs) && currentOutput == old(currentOutput)
    {
      if !IsValidType(varType) {
        return;
      }
      var i := 0;
      while i < |variables|
        invariant 0 <= i <= |variables|
        invariant forall k :: 0 <= k < i ==> variables[k].name != name
      {
        if variables[i].name == name {
          return;
        }
        i := i + 1;
      }
      variables := variables + [Variable(varType, name, value)];
    }

    /** `addInput` (lines 151-159): appends the name unless it is already declared. */
    method AddInput(inputName: string)
      requires Valid()
      modifies this
      ensures Valid()
      ensures inputs == if inputName in old(inputs) then old(inputs) else old(inputs) + [inputName]
      ensures states == old(states) && startState == old(startState) && currentState == old(currentState)
      ensures variables == old(variables) && outputs == old(outputs) && currentOutput == old(currentOutput)
    {
      if !Contains(inputs, inputName) {
        inputs := inputs + [inputName];
      }
    }

    /** `addOutput` (lines 161-169): appends the name unless it is already declared. */
    method AddOutput(outputName: string)
      requires Valid()
      modifies this
      ensures Valid()
      ensures outputs == if outputName in old(outputs) then old(outputs) else old(outputs) + [outputName]
      ensures states == old(states) && startState == old(startState) && currentState == old(currentState)
      ensures variables == old(variables) && inputs == old(inputs) && currentOutput == old(currentOutput)
    {
      if !Contains(outputs, outputName) {
        outputs := outputs + [outputName];
      }
    }

    /** `setCurrentOutput` (lines 179-181): one output key set, the others kept. */
    method SetCurrentOutput(outputName: string, outputValue: string)
      modifies this
      ensures currentOutput == old(currentOutput)[outputName := outputValue]
      ensures states == old(states) && startState == old(startState) && currentState == old(currentState)
      ensures variables == old(variables) && inputs == old(inputs) && outputs == old(outputs)
    {
      currentOutput := currentOutput[outputName := outputValue];
    }

    /**
     * `setInitialOutput` (lines 183-187): every declared output is set to the empty text;
     * other keys keep their values.
     */
    method SetInitialOutput()
      modifies this
      ensures currentOutput.Keys == old(currentOutput).Keys + set o | o in outputs
      ensures forall o :: o in outputs ==> currentOutput[o] == ""
      ensures forall k :: k in old(currentOutput) && k !in outputs ==> currentOutput[k] == old(currentOutput)[k]
      ensures states == old(states) && startState == old(startState) && currentState == old(currentState)
      ensures variables == old(variables) && inputs == old(inputs) && outputs == old(outputs)
    {
      var i := 0;
      while i < |outputs|
        invariant 0 <= i <= |outputs|
        invariant currentOutput.Keys == old(currentOutput).Keys + set o | o in outputs[..i]
        invariant forall o :: o in outputs[..i] ==> currentOutput[o] == ""
        invariant forall k :: k in old(currentOutput) && k !in outputs[..i] ==>
                    currentOutput[k] == old(currentOutput)[k]
        invariant states == old(states) && startState == old(startState) && currentState == old(currentState)
        invariant variables == old(variables) && inputs == old(inputs) && outputs == old(outputs)
      {
        assert outputs[..i + 1] == outputs[..i] + [outputs[i]];
        SetCurrentOutput(outputs[i], "");
        i := i + 1;
      }
      assert outputs[..i] == outputs;
    }

    /**
     * `processStartState` (lines 189-192): the current state's entry expression is run by
     * an executor with no guard and no selected input.
     */
    method ProcessStartState() returns (failure: Option<Error>)
      requires 0 <= currentState < |states|
      modifies this
      ensures states == old(states) && startState == old(startState) && currentState == old(currentState)
      ensures variables == old(variables) && inputs == old(inputs) && outputs == old(outputs)
      ensures match StateExprWrites(Executor(inputs, "", "", ""), states[currentState].outputExpr)
        case Failure(e) => failure == Some(e) && currentOutput == old(currentOutput)
        case Success(ws) => failure == None && currentOutput == ApplyWrites(old(currentOutput), ws)
    {
      var executor := Executor(inputs, "", "", "");
      var r := ExecuteStateExpr(executor, states[currentState].outputExpr);
      if r.Failure? {
        return Some(r.error);
      }
      currentOutput := ApplyWrites(currentOutput, r.value);
      return None;
    }

    /**
     * One pass of the loop in `processInput` (lines 202-224): a transition on the chosen
     * input with a guard has its guard evaluated, and when the guard holds the machine
     * moves to the target and runs the target's entry expression. The new state is the
     * one `Visit` computes.
     */
    method VisitTransition(stim: Stimulus, stateTransitions: map<TransitionExpression, int>,
                           expr: TransitionExpression) returns (failure: Option<Error>)
      requires expr in stateTransitions && TargetsIn(stateTransitions, |states|)
      requires 0 <= currentState < |states|
      modifies this
      ensures states == old(states) && startState == old(startState)
      ensures variables == old(variables) && inputs == old(inputs) && outputs == old(outputs)
      ensures Scan(Config(currentState, currentOutput), failure) ==
              Visit(states, stim, stateTransitions, expr, Config(old(currentState), old(currentOutput)))
    {
      failure := None;
      if expr.inputEvent == stim.name && expr.boolExpr != "" {
        var executor := ExecutorFor(stim, expr);
        var transitionByBool := ExecuteTransitionBoolExpr(executor);
        if transitionByBool.Failure? {
          return Some(transitionByBool.error);
        }
        currentOutput := ApplyWrites(currentOutput, transitionByBool.value.writes);
        if transitionByBool.value.holds {
          currentState := stateTransitions[expr];
          var entry := ExecuteStateExpr(executor, states[currentState].outputExpr);
          if entry.Failure? {
            return Some(entry.error);
          }
          currentOutput := ApplyWrites(currentOutput, entry.value);
        }
      }
    }

    /**
     * `processInput` (lines 195-230). An undeclared input changes nothing. Otherwise the
     * entries of a copy of the current state's table are visited in some enumeration order,
     * as `Run` describes; an error stops the scan where it occurs. The machine ends in the
     * state it started in or in the target of a transition that fires.
     */
    method ProcessInput(inputName: string, inputValue: string) returns (failure: Option<Error>)
      requires Runnable()
      modifies this
      ensures Runnable() && (old(Valid()) ==> Valid())
      ensures states == old(states) && startState == old(startState)
      ensures variables == old(variables) && inputs == old(inputs) && outputs == old(outputs)
      ensures inputName !in inputs ==>
        failure == None && currentState == old(currentState) && currentOutput == old(currentOutput)
      ensures inputName in inputs ==>
        exists order :: NoDuplicates(order) &&
          (forall k :: 0 <= k < |order| ==> order[k] in states[old(currentState)].transitions) &&
          (failure == None ==> Enumerates(order, states[old(currentState)].transitions)) &&
          Run(states, Stimulus(inputs, inputName, inputValue), states[old(currentState)].transitions,
              order, Config(old(currentState), old(currentOutput))) ==
            Scan(Config(currentState, currentOutput), failure)
      ensures currentState == old(currentState) ||
        exists e :: e in states[old(currentState)].transitions &&
          Fires(Stimulus(inputs, inputName, inputValue), e) &&
          currentState == states[old(currentState)].transitions[e]
    {
      failure := None;
      if !IsInputValid(inputName) {
        return;
      }
      var stim := Stimulus(inputs, inputName, inputValue);
      var stateTransitions := states[currentState].transitions;
      ghost var start := Config(currentState, currentOutput);
      ghost var done: seq<TransitionExpression> := [];
      var pending := stateTransitions.Keys;
      while pending != {} && failure == None
        invariant pending <= stateTransitions.Keys
        invariant NoDuplicates(done)
        invariant forall k :: 0 <= k < |done| ==> done[k] in stateTransitions && done[k] !in pending
        invariant forall e :: e in stateTransitions ==> e in pending || e in done
        invariant TargetsIn(stateTransitions, |states|)
        invariant Run(states, stim, stateTransitions, done, start) ==
                  Scan(Config(currentState, currentOutput), failure)
        invariant 0 <= currentState < |states|
        invariant states == old(states) && startState == old(startState)
        invariant variables == old(variables) && inputs == old(inputs) && outputs == old(outputs)
        decreases pending
      {
        var expr :| expr in pending;
        pending := pending - {expr};
        RunSnoc(states, stim, stateTransitions, done, expr, start);
        done := done + [expr];
        failure := VisitTransition(stim, stateTransitions, expr);
      }
      RunTarget(states, stim, stateTransitions, done, start);
      assert failure == None ==> Enumerates(done, stateTransitions);
    }

    /** The indices of the states. */
    function Indices(): (r: set<int>)
      reads this
      ensures forall i :: i in r <==> 0 <= i < |states|
    {
      Below(|states|)
    }

    /**
     * `dfs` (lines 12-20): marks `state`, then every target of its table not yet marked,
     * depth first. Each newly marked state is reachable from `state`, and holds its
     * targets in the final set.
     */
    method Dfs(state: int, visited: set<int>) returns (result: set<int>)
      requires Closed(states) && 0 <= state < |states|
      ensures visited + {state} <= result
      ensures forall v :: v in result - visited ==> 0 <= v < |states|
      ensures forall v :: v in result - visited ==> Targets(states, v) <= result
      ensures forall v :: v in result - visited ==> Reachable(states, state, v)
      decreases Indices() - visited - {state}
    {
      ReachableSelf(states, state);
      result := visited + {state};
      var transitions := states[state].transitions;
      var pending := transitions.Keys;
      while pending != {}
        invariant pending <= transitions.Keys
        invariant visited + {state} <= result
        invariant forall v :: v in result - visited ==> 0 <= v < |states|
        invariant forall v :: v in result - visited - {state} ==> Targets(states, v) <= result
        invariant forall e :: e in transitions && e !in pending ==> transitions[e] in result
        invariant forall v :: v in result - visited ==> Reachable(states, state, v)
        decreases pending
      {
        var e :| e in pending;
        pending := pending - {e};
        var nextState := transitions[e];
        if nextState !in result {
          assert nextState in Targets(states, state);
          var deeper := Dfs(nextState, result);
          forall v | v in deeper - visited
            ensures 0 <= v < |states| && Reachable(states, state, v)
            ensures v != state ==> Targets(states, v) <= deeper
          {
            if v !in result {
              assert v in deeper - result;
              ReachableStep(states, state, nextState, v);
            } else if v != state {
              assert v in result - visited - {state};
              assert result <= deeper;
            }
          }
          result := deeper;
        }
      }
    }

    /**
     * `checkReachability` (lines 254-264): the states, in index order, that the search
     * from state 0 does not mark; exactly those that cannot be reached from state 0.
     */
    method CheckReachability() returns (unreachable: seq<int>)
      requires Closed(states) && |states| > 0
      ensures forall i :: i in unreachable <==> 0 <= i < |states| && !Reachable(states, 0, i)
      ensures forall a, b :: 0 <= a < b < |unreachable| ==> unreachable[a] < unreachable[b]
    {
      var visited := Dfs(0, {});
      assert visited - {} == visited;
      forall i | 0 <= i < |states| && Reachable(states, 0, i)
        ensures i in visited
      {
        ClosedSetHoldsReachable(states, visited, 0, i);
      }
      unreachable := [];
      for i := 0 to |states|
        invariant forall x :: x in unreachable <==> 0 <= x < i && x !in visited
        invariant forall a, b :: 0 <= a < b < |unreachable| ==> unreachable[a] < unreachable[b]
        invariant forall a :: 0 <= a < |unreachable| ==> unreachable[a] < i
      {
        if i !in visited {
          unreachable := unreachable + [i];
        }
      }
    }

    /**
     * `checkDeadStates` (lines 266-272): the states, in index order, whose transition
     * table is empty.
     */
    method CheckDeadStates() returns (dead: seq<int>)
      ensures forall i :: i in dead <==> 0 <= i < |states| && states[i].transitions == map[]
      ensures forall a, b :: 0 <= a < b < |dead| ==> dead[a] < dead[b]
    {
      dead := [];
      for i := 0 to |states|
        invariant forall x :: x in dead <==> 0 <= x < i && states[x].transitions == map[]
        invariant forall a, b :: 0 <= a < b < |dead| ==> dead[a] < dead[b]
        invariant forall a :: 0 <= a < |dead| ==> dead[a] < i
      {
        if |states[i].transitions| == 0 {
          dead := dead + [i];
        }
      }
    }

    /**
     * The inner loop of `checkRedundancy` (lines 276-281): the states after `i` that are
     * equivalent to state `i`, in index order.
     */
    method EquivalentAfter(i: int) returns (pairs: seq<(int, int)>)
      requires 0 <= i < |states|
      ensures forall x :: x in pairs <==> x.0 == i && i < x.1 < |states| && Equivalent(states[i], states[x.1])
      ensures forall a, b :: 0 <= a < b < |pairs| ==> PairBefore(pairs[a], pairs[b])
    {
      pairs := [];
      for j := i + 1 to |states|
        invariant forall x :: x in pairs <==> x.0 == i && i < x.1 < j && Equivalent(states[i], states[x.1])
        invariant forall a, b :: 0 <= a < b < |pairs| ==> PairBefore(pairs[a], pairs[b])
        invariant forall a :: 0 <= a < |pairs| ==> pairs[a].0 == i && pairs[a].1 < j
      {
        if states[i].outputExpr == states[j].outputExpr && states[i].transitions == states[j].transitions {
          pairs := pairs + [(i, j)];
        }
      }
    }

    /**
     * `checkRedundancy` (lines 274-283): the pairs `i < j` of equivalent states, in the
     * order the nested loops visit them.
     */
    method CheckRedundancy() returns (pairs: seq<(int, int)>)
      ensures forall x :: x in pairs <==> 0 <= x.0 < x.1 < |states| && Equivalent(states[x.0], states[x.1])
      ensures forall a, b :: 0 <= a < b < |pairs| ==> PairBefore(pairs[a], pairs[b])
    {
      pairs := [];
      for i := 0 to |states|
        invariant forall x :: x in pairs <==> 0 <= x.0 < i && x.0 < x.1 < |states| && Equivalent(states[x.0], states[x.1])
        invariant forall a, b :: 0 <= a < b < |pairs| ==> PairBefore(pairs[a], pairs[b])
        invariant forall a :: 0 <= a < |pairs| ==> pairs[a].0 < i
      {
        var row := EquivalentAfter(i);
        pairs := pairs + row;
      }
    }

    /** `doAllChecks` (lines 285-289): the three diagnostics, in this order. */
    method DoAllChecks() returns (unreachable: seq<int>, dead: seq<int>, pairs: seq<(int, int)>)
      requires Closed(states) && |states| > 0
      ensures forall i :: i in unreachable <==> 0 <= i < |states| && !Reachable(states, 0, i)
      ensures forall i :: i in dead <==> 0 <= i < |states| && states[i].transitions == map[]
      ensures forall x :: x in pairs <==> 0 <= x.0 < x.1 < |states| && Equivalent(states[x.0], states[x.1])
    {
      unreachable := CheckReachability();
      dead := CheckDeadStates();
      pairs := CheckRedundancy();
    }
  }
}