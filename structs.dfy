/** The value types of the simulator: variables, transition expressions and states. */
module Structs {

  /** A machine variable: its declared type name, its unique name and its value as text. */
  datatype Variable = Variable(varType: string, name: string, value: string)

  /**
   * The three parts of a transition label `<inputEvent> [ <boolExpr> ] @ <delay>`;
   * each part may be empty.
   */
  datatype TransitionExpression = TransitionExpression(inputEvent: string, boolExpr: string, delay: string)

  /**
   * A state: its name, its entry expression and its transition table. The table is a
   * map, so it holds at most one next-state index per distinct transition expression.
   */
  datatype State = State(name: string, outputExpr: string, transitions: map<TransitionExpression, int>)

  /**
   * `TransitionExpression::operator==`: compares the three fields. It coincides with
   * structural equality, so it is an equivalence and a sound key for the table.
   */
  predicate SameExpression(a: TransitionExpression, b: TransitionExpression): (r: bool)
    ensures r <==> a == b
  {
    a.inputEvent == b.inputEvent && a.boolExpr == b.boolExpr && a.delay == b.delay
  }

  /**
   * `std::hash<TransitionExpression>`: the string hashes of the three fields combined by
   * XOR with shifts of 0, 1 and 2 bits on a 64-bit `size_t`. The string hash itself is
   * foreign, so it is a parameter.
   */
  function Hash(stringHash: string -> bv64, e: TransitionExpression): bv64 {
    stringHash(e.inputEvent) ^ (stringHash(e.boolExpr) << 1) ^ (stringHash(e.delay) << 2)
  }

  /** Expressions that `operator==` identifies hash alike, whatever the string hash. */
  lemma HashRespectsEquality(stringHash: string -> bv64, a: TransitionExpression, b: TransitionExpression)
    requires SameExpression(a, b)
    ensures Hash(stringHash, a) == Hash(stringHash, b)
  {
  }
}
