/**
 * The text helpers of `MooreMachine` (src/MooreMachine.cpp): `removeSpaces`,
 * `trimBracketSpaces` and `parseExpr`, which turns a transition label
 * `<inputEvent> [ <boolExpr> ] @ <delay>` into a `TransitionExpression`.
 */
module TransitionSyntax {
  import opened Wrappers
  import opened Text
  import opened Structs

  /** `removeSpaces`: deletes every ' ' (and no other blank), keeping the rest in order. */
  function RemoveSpaces(s: string): (r: string)
    ensures ' ' !in r
    ensures |r| <= |s|
  {
    if s == [] then []
    else (if s[0] == ' ' then [] else [s[0]]) + RemoveSpaces(s[1..])
  }

  /**
   * `RemoveSpaces` distributes over concatenation. With the one-character case of its
   * definition this pins it down: each character is kept or dropped on its own, in order.
   */
  lemma {:induction false} RemoveSpacesAppend(a: string, b: string)
    ensures RemoveSpaces(a + b) == RemoveSpaces(a) + RemoveSpaces(b)
  {
    if a == [] {
      assert a + b == b;
    } else {
      assert (a + b)[0] == a[0];
      assert (a + b)[1..] == a[1..] + b;
      RemoveSpacesAppend(a[1..], b);
    }
  }

  /** A text without spaces is left as it is. */
  lemma {:induction false} RemoveSpacesKeeps(s: string)
    requires ' ' !in s
    ensures RemoveSpaces(s) == s
  {
    if s != [] {
      assert s[0] in s;
      RemoveSpacesKeeps(s[1..]);
    }
  }

  /** Removing spaces twice is removing them once. */
  lemma RemoveSpacesIdempotent(s: string)
    ensures RemoveSpaces(RemoveSpaces(s)) == RemoveSpaces(s)
  {
    RemoveSpacesKeeps(RemoveSpaces(s));
  }

  /** Exactly the spaces go: every other character keeps its number of occurrences. */
  lemma {:induction false} RemoveSpacesCount(s: string)
    ensures |RemoveSpaces(s)| == |s| - Count(s, ' ')
    ensures forall c :: c != ' ' ==> Count(RemoveSpaces(s), c) == Count(s, c)
  {
    if s != [] {
      RemoveSpacesCount(s[1..]);
      var head := if s[0] == ' ' then [] else [s[0]];
      forall c | c != ' ' ensures Count(RemoveSpaces(s), c) == Count(s, c) {
        CountAppend(head, RemoveSpaces(s[1..]), c);
      }
    }
  }

  /** The number of spaces `t` starts with. */
  function LeadingSpaces(t: string): (n: nat)
    ensures n <= |t| && (n == |t| || t[n] != ' ')
    ensures forall i :: 0 <= i < n ==> t[i] == ' '
  {
    if t != [] && t[0] == ' ' then 1 + LeadingSpaces(t[1..]) else 0
  }

  /** The number of spaces `t` ends with. */
  function TrailingSpaces(t: string): (n: nat)
    ensures n <= |t| && (n == |t| || t[|t| - n - 1] != ' ')
    ensures forall i :: |t| - n <= i < |t| ==> t[i] == ' '
  {
    if t != [] && t[|t| - 1] == ' ' then 1 + TrailingSpaces(t[..|t| - 1]) else 0
  }

  /** `t` without its leading spaces. */
  function DropLeadingSpaces(t: string): string {
    t[LeadingSpaces(t)..]
  }

  /** `t` without its trailing spaces. */
  function DropTrailingSpaces(t: string): string {
    t[..|t| - TrailingSpaces(t)]
  }

  /** Dropping leading spaces stops at the first non-space, index `k`. */
  lemma {:induction false} DropLeadingSpacesAt(t: string, k: nat)
    requires k <= |t| && (k == |t| || t[k] != ' ')
    requires forall i :: 0 <= i < k ==> t[i] == ' '
    ensures LeadingSpaces(t) == k && DropLeadingSpaces(t) == t[k..]
  {
    if k > 0 {
      assert t[0] == ' ';
      DropLeadingSpacesAt(t[1..], k - 1);
    }
  }

  /** Dropping trailing spaces stops after the last non-space, index `k - 1`. */
  lemma {:induction false} DropTrailingSpacesAt(t: string, k: nat)
    requires k <= |t| && (k == 0 || t[k - 1] != ' ')
    requires forall i :: k <= i < |t| ==> t[i] == ' '
    ensures TrailingSpaces(t) == |t| - k && DropTrailingSpaces(t) == t[..k]
  {
    if k < |t| {
      assert t[|t| - 1] == ' ';
      DropTrailingSpacesAt(t[..|t| - 1], k);
    }
  }

  /**
   * `t` with the spaces at both ends removed: what remains is a contiguous part of `t`,
   * interior spaces included, and only spaces were cut off on either side.
   */
  function Strip(t: string): (r: string)
    ensures r == [] || (r[0] != ' ' && r[|r| - 1] != ' ')
    ensures StripStart(t) + |r| <= |t| && t[StripStart(t)..StripStart(t) + |r|] == r
    ensures forall k :: 0 <= k < StripStart(t) ==> t[k] == ' '
    ensures forall k :: StripStart(t) + |r| <= k < |t| ==> t[k] == ' '
  {
    var lead := DropLeadingSpaces(t);
    var r := DropTrailingSpaces(lead);
    assert lead[..|r|] == t[LeadingSpaces(t)..LeadingSpaces(t) + |r|];
    r
  }

  /** Where the stripped text starts in `t`: the number of leading spaces. */
  function StripStart(t: string): nat {
    LeadingSpaces(t)
  }

  /** The first loop of `trimBracketSpaces`: the spaces right after the first '[' erased. */
  function OpenTrimmed(s: string): string {
    match Find(s, "[", 0)
    case None => s
    case Some(o) => s[..o + 1] + DropLeadingSpaces(s[o + 1..])
  }

  /**
   * The second loop of `trimBracketSpaces`: the spaces right before the first ']' erased.
   * `None` when those spaces run back to the start of the text, where the source reads
   * `str[-1]`.
   */
  function CloseTrimmed(s: string): Option<string> {
    match Find(s, "]", 0)
    case None => Some(s)
    case Some(c) =>
      if c == 0 then Some(s)
      else
        var kept := DropTrailingSpaces(s[..c]);
        if kept == [] then None else Some(kept + s[c..])
  }

  /** The result of `trimBracketSpaces`. */
  function BracketTrimmed(s: string): Option<string> {
    CloseTrimmed(OpenTrimmed(s))
  }

  /** `trimBracketSpaces` (MooreMachine.cpp:83-104): two loops that erase one character at a time. */
  method TrimBracketSpaces(s: string) returns (r: Option<string>)
    ensures r == BracketTrimmed(s)
  {
    var str := s;
    var openBracket := Find(str, "[", 0);
    if openBracket.Some? && openBracket.value + 1 < |str| {
      str := EraseSpacesAfter(str, openBracket.value);
    }
    assert str == OpenTrimmed(s);
    var closeBracket := Find(str, "]", 0);
    if closeBracket.Some? && closeBracket.value > 0 {
      var c;
      str, c := EraseSpacesBefore(str, closeBracket.value);
      if c == 0 {
        // the loop test would now read the character before index 0
        return None;
      }
    }
    return Some(str);
  }

  /** The first loop of `trimBracketSpaces`: erases the character after index `o` while it is a space. */
  method EraseSpacesAfter(s: string, o: nat) returns (str: string)
    requires o + 1 < |s|
    ensures str == s[..o + 1] + DropLeadingSpaces(s[o + 1..])
  {
    str := s;
    ghost var erased := 0;
    assert s[o + 1..] == s[o + 1 + erased..];
    while o + 1 < |str| && str[o + 1] == ' '
      invariant o + 1 + erased <= |s|
      invariant str == s[..o + 1] + s[o + 1 + erased..]
      invariant forall i :: o + 1 <= i < o + 1 + erased ==> s[i] == ' '
      decreases |s| - erased
    {
      EraseAfterOpen(s, o, erased);
      str := str[..o + 1] + str[o + 2..];
      erased := erased + 1;
    }
    LeadingRun(s, o, erased);
  }

  /**
   * The second loop of `trimBracketSpaces`: erases the character before index `c`, which
   * starts at `close` and moves back with each erasure, while it is a space.
   */
  method EraseSpacesBefore(t: string, close: nat) returns (str: string, c: nat)
    requires 0 < close <= |t|
    ensures c <= close && DropTrailingSpaces(t[..close]) == t[..c]
    ensures str == t[..c] + t[close..]
  {
    str := t;
    c := close;
    assert str == t[..c] + t[close..];
    while c > 0 && str[c - 1] == ' '
      invariant 0 <= c <= close
      invariant str == t[..c] + t[close..]
      invariant forall i :: c <= i < close ==> t[i] == ' '
      decreases c
    {
      EraseBeforeClose(t, c, close);
      str := str[..c - 1] + str[c..];
      c := c - 1;
    }
    TrailingRun(t, c, close);
  }

  /** One step of the first loop: the character after the '[' is erased. */
  lemma EraseAfterOpen(s: string, o: nat, e: nat)
    requires o + 1 + e < |s|
    ensures var str := s[..o + 1] + s[o + 1 + e..];
      str[o + 1] == s[o + 1 + e] && str[..o + 1] + str[o + 2..] == s[..o + 1] + s[o + 2 + e..]
  {
    var str := s[..o + 1] + s[o + 1 + e..];
    assert str[..o + 1] == s[..o + 1];
    assert str[o + 2..] == s[o + 2 + e..];
  }

  /** One step of the second loop: the character before the ']' is erased. */
  lemma EraseBeforeClose(t: string, c: nat, close: nat)
    requires 0 < c <= close <= |t|
    ensures var str := t[..c] + t[close..];
      str[c - 1] == t[c - 1] && str[..c - 1] + str[c..] == t[..c - 1] + t[close..]
  {
    var str := t[..c] + t[close..];
    assert str[..c - 1] == t[..c - 1];
    assert str[c..] == t[close..];
  }

  /** The first loop stops after erasing the run of `e` spaces that follows index `o`. */
  lemma LeadingRun(s: string, o: nat, e: nat)
    requires o + 1 + e <= |s| && (o + 1 + e == |s| || s[o + 1 + e] != ' ')
    requires forall i :: o + 1 <= i < o + 1 + e ==> s[i] == ' '
    ensures DropLeadingSpaces(s[o + 1..]) == s[o + 1 + e..]
  {
    var t := s[o + 1..];
    assert forall i :: 0 <= i < e ==> t[i] == s[o + 1 + i];
    DropLeadingSpacesAt(t, e);
    assert t[e..] == s[o + 1 + e..];
  }

  /** The second loop stops after erasing the run of spaces from `c` up to `close`. */
  lemma TrailingRun(t: string, c: nat, close: nat)
    requires c <= close <= |t| && (c == 0 || t[c - 1] != ' ')
    requires forall i :: c <= i < close ==> t[i] == ' '
    ensures DropTrailingSpaces(t[..close]) == t[..c]
  {
    var u := t[..close];
    DropTrailingSpacesAt(u, c);
    assert u[..c] == t[..c];
  }

  /**
   * Lines 52-55 of `parseExpr`: the text between the first '[' and the first ']' of
   * the bracket-trimmed label part.
   */
  function BracketContent(bracketed: string): string {
    match BracketTrimmed(bracketed)
    case None => ""
    case Some(m) => Between(m)
  }

  /** The text between the first '[' and the first ']' of `m`, or "" when that is not a range. */
  function Between(m: string): string {
    var l := Find(m, "[", 0);
    var r := Find(m, "]", 0);
    if l.Some? && r.Some? && l.value < r.value then m[l.value + 1..r.value] else ""
  }

  /** `parseExpr` (MooreMachine.cpp:32-76): splits a transition label into its three parts. */
  function ParseExpr(expr: string): (r: TransitionExpression)
    ensures ' ' !in r.delay
  {
    TransitionExpression(InputEventOf(expr), GuardOf(expr), DelayOf(expr))
  }

  /** Lines 36-44 of `parseExpr`: the text after the first '@' without spaces. */
  function DelayOf(expr: string): string {
    var atPosition := Find(expr, "@", 0);
    if atPosition.Some? then RemoveSpaces(expr[atPosition.value + 1..]) else ""
  }

  /** Lines 46-60 of `parseExpr`: the guard, when the first ']' comes after the first '['. */
  function GuardOf(expr: string): string {
    var leftBracket := Find(expr, "[", 0);
    var rightBracket := Find(expr, "]", 0);
    if leftBracket.Some? && rightBracket.Some? && rightBracket.value > leftBracket.value
    then BracketContent(expr[leftBracket.value..rightBracket.value + 1])
    else ""
  }

  /** Lines 62-73 of `parseExpr`: the text before the first '[', or else before the first '@'. */
  function InputEventOf(expr: string): string {
    var leftBracket := Find(expr, "[", 0);
    var atPosition := Find(expr, "@", 0);
    if leftBracket.Some? then RemoveSpaces(expr[..leftBracket.value])
    else if atPosition.Some? then RemoveSpaces(expr[..atPosition.value])
    else expr
  }

  /** `k` is the index of the first `c` in `s`. */
  predicate FirstAt(s: string, c: char, k: int) {
    0 <= k < |s| && s[k] == c && forall i :: 0 <= i < k ==> s[i] != c
  }

  /** The delay is the text after the first '@' without spaces, or empty without '@'. */
  lemma ParseDelay(expr: string)
    ensures forall k :: FirstAt(expr, '@', k) ==> ParseExpr(expr).delay == RemoveSpaces(expr[k + 1..])
    ensures '@' !in expr ==> ParseExpr(expr).delay == ""
  {
    forall k | FirstAt(expr, '@', k) ensures ParseExpr(expr).delay == RemoveSpaces(expr[k + 1..]) {
      FindChar(expr, '@', 0, k);
    }
    if '@' !in expr {
      FindCharNone(expr, '@', 0);
    }
  }

  /**
   * The input event is the space-free text before the first '[', or else before the
   * first '@'; with neither, it is the whole label, spaces included.
   */
  lemma ParseInputEvent(expr: string)
    ensures forall k :: FirstAt(expr, '[', k) ==> ParseExpr(expr).inputEvent == RemoveSpaces(expr[..k])
    ensures forall k :: '[' !in expr && FirstAt(expr, '@', k) ==> ParseExpr(expr).inputEvent == RemoveSpaces(expr[..k])
    ensures '[' !in expr && '@' !in expr ==> ParseExpr(expr).inputEvent == expr
  {
    forall k | FirstAt(expr, '[', k) ensures ParseExpr(expr).inputEvent == RemoveSpaces(expr[..k]) {
      FindChar(expr, '[', 0, k);
    }
    if '[' !in expr {
      FindCharNone(expr, '[', 0);
      forall k | FirstAt(expr, '@', k) ensures ParseExpr(expr).inputEvent == RemoveSpaces(expr[..k]) {
        FindChar(expr, '@', 0, k);
      }
      if '@' !in expr {
        FindCharNone(expr, '@', 0);
      }
    }
  }

  /** Dropping leading spaces before a closing ']' keeps the ']'. */
  lemma DropLeadingBeforeClose(inner: string)
    ensures DropLeadingSpaces(inner + "]") == DropLeadingSpaces(inner) + "]"
  {
    var lead := DropLeadingSpaces(inner);
    var k := |inner| - |lead|;
    DropLeadingSpacesAt(inner + "]", k);
    assert (inner + "]")[k..] == lead + "]";
  }

  /** Dropping trailing spaces after an opening '[' keeps the '['. */
  lemma DropTrailingAfterOpen(t: string)
    ensures DropTrailingSpaces("[" + t) == "[" + DropTrailingSpaces(t)
  {
    var body := DropTrailingSpaces(t);
    DropTrailingSpacesAt("[" + t, |body| + 1);
    assert ("[" + t)[..|body| + 1] == "[" + body;
  }

  /** No ']' survives in a part of a text that has none. */
  lemma StripHasNoClose(inner: string)
    requires ']' !in inner
    ensures ']' !in Strip(inner) && ']' !in DropLeadingSpaces(inner)
  {
    var lead := DropLeadingSpaces(inner);
    assert forall i :: 0 <= i < |lead| ==> lead[i] == inner[|inner| - |lead| + i];
    var g := Strip(inner);
    assert forall j :: 0 <= j < |g| ==> g[j] == inner[StripStart(inner) + j];
  }

  /** With the first '[' at `o`, the first loop erases the spaces after it. */
  lemma OpenTrimmedAt(s: string, o: nat)
    requires FirstAt(s, '[', o)
    ensures OpenTrimmed(s) == s[..o + 1] + DropLeadingSpaces(s[o + 1..])
  {
    FindChar(s, '[', 0, o);
  }

  /** With the first ']' at `c > 0`, the second loop erases the spaces before it. */
  lemma CloseTrimmedAt(s: string, c: nat)
    requires FirstAt(s, ']', c) && c > 0
    ensures CloseTrimmed(s) ==
      var kept := DropTrailingSpaces(s[..c]); if kept == [] then None else Some(kept + s[c..])
  {
    FindChar(s, ']', 0, c);
  }

  /** How `[g]` splits around its brackets. */
  lemma Bracketed(g: string)
    ensures var m := "[" + g + "]";
      |m| == |g| + 2 && m[0] == '[' && m[..1] == "[" && m[1..] == g + "]" && m[1..|g| + 1] == g &&
      m[..|g| + 1] == "[" + g && m[|g| + 1..] == "]"
  {
  }

  /** In `[g]` with no ']' in `g`, the brackets are the first of their kind. */
  lemma BracketedFirst(g: string)
    requires ']' !in g
    ensures FirstAt("[" + g + "]", '[', 0) && FirstAt("[" + g + "]", ']', |g| + 1)
  {
    var m := "[" + g + "]";
    forall i | 0 <= i < |g| + 1 ensures m[i] != ']' {
      if i > 0 {
        assert m[i] == g[i - 1];
      }
    }
  }

  /** The first loop on `[inner]` strips the spaces after the '['. */
  lemma OpenTrimmedOf(inner: string)
    ensures OpenTrimmed("[" + inner + "]") == "[" + DropLeadingSpaces(inner) + "]"
  {
    Bracketed(inner);
    OpenTrimmedAt("[" + inner + "]", 0);
    DropLeadingBeforeClose(inner);
    assert "[" + (DropLeadingSpaces(inner) + "]") == "[" + DropLeadingSpaces(inner) + "]";
  }

  /** `trimBracketSpaces` on `[inner]` strips exactly the spaces touching the brackets. */
  lemma BracketTrimmedOf(inner: string)
    requires ']' !in inner
    ensures BracketTrimmed("[" + inner + "]") == Some("[" + Strip(inner) + "]")
  {
    var lead := DropLeadingSpaces(inner);
    OpenTrimmedOf(inner);
    StripHasNoClose(inner);
    Bracketed(lead);
    BracketedFirst(lead);
    CloseTrimmedAt("[" + lead + "]", |lead| + 1);
    DropTrailingAfterOpen(lead);
  }

  /** The guard text between the brackets is `Strip` of what lies between them. */
  lemma BracketContentOf(inner: string)
    requires ']' !in inner
    ensures BracketContent("[" + inner + "]") == Strip(inner)
  {
    BracketTrimmedOf(inner);
    StripHasNoClose(inner);
    BetweenOf(Strip(inner));
  }

  /** Between the brackets of `[g]`, with no ']' in `g`, lies `g`. */
  lemma BetweenOf(g: string)
    requires ']' !in g
    ensures Between("[" + g + "]") == g
  {
    Bracketed(g);
    BracketedFirst(g);
    FindChar("[" + g + "]", '[', 0, 0);
    FindChar("[" + g + "]", ']', 0, |g| + 1);
  }

  /** The slice from a '[' to a later ']' is `[` + what lies between + `]`. */
  lemma BracketSlice(expr: string, l: nat, r: nat)
    requires l < r < |expr| && expr[l] == '[' && expr[r] == ']'
    requires forall i :: 0 <= i < r ==> expr[i] != ']'
    ensures expr[l..r + 1] == "[" + expr[l + 1..r] + "]"
    ensures ']' !in expr[l + 1..r]
  {
    var inner := expr[l + 1..r];
    forall j | 0 <= j < |inner| ensures inner[j] != ']' {
      assert inner[j] == expr[l + 1 + j];
    }
  }

  /**
   * The guard is the text strictly between the first '[' and the first ']', with only
   * the spaces touching the brackets removed; it is empty unless both brackets occur
   * and the ']' comes after the '['.
   */
  lemma ParseGuard(expr: string)
    ensures forall l, r :: FirstAt(expr, '[', l) && FirstAt(expr, ']', r) && l < r ==>
              ParseExpr(expr).boolExpr == Strip(expr[l + 1..r])
    ensures forall l, r :: FirstAt(expr, '[', l) && FirstAt(expr, ']', r) && r < l ==>
              ParseExpr(expr).boolExpr == ""
    ensures '[' !in expr || ']' !in expr ==> ParseExpr(expr).boolExpr == ""
  {
    forall l, r | FirstAt(expr, '[', l) && FirstAt(expr, ']', r) && l < r
      ensures GuardOf(expr) == Strip(expr[l + 1..r])
    {
      GuardAt(expr, l, r);
    }
    forall l, r | FirstAt(expr, '[', l) && FirstAt(expr, ']', r) && r < l
      ensures GuardOf(expr) == ""
    {
      GuardReversed(expr, l, r);
    }
    if '[' !in expr {
      FindCharNone(expr, '[', 0);
    }
    if ']' !in expr {
      FindCharNone(expr, ']', 0);
    }
  }

  /** `ParseGuard` for given positions of the first '[' and the first ']', in this order. */
  lemma GuardAt(expr: string, l: nat, r: nat)
    requires FirstAt(expr, '[', l) && FirstAt(expr, ']', r) && l < r
    ensures GuardOf(expr) == Strip(expr[l + 1..r])
  {
    BracketSlice(expr, l, r);
    FindChar(expr, '[', 0, l);
    FindChar(expr, ']', 0, r);
    BracketContentOf(expr[l + 1..r]);
  }

  /** `ParseGuard` when the first ']' comes before the first '['. */
  lemma GuardReversed(expr: string, l: nat, r: nat)
    requires FirstAt(expr, '[', l) && FirstAt(expr, ']', r) && r < l
    ensures GuardOf(expr) == ""
  {
    FindChar(expr, '[', 0, l);
    FindChar(expr, ']', 0, r);
  }
}
