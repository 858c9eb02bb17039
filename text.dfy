/**
 * The searches that the simulator performs on `std::string` and `std::vector`:
 * `find` of a substring from a start position, and membership by linear search.
 */
module Text {
  import opened Wrappers

  /** Pattern `p` occurs in `s` starting at index `i`. */
  predicate OccursAt(s: string, p: string, i: int) {
    0 <= i && i + |p| <= |s| && s[i..i + |p|] == p
  }

  /** Pattern `p` occurs somewhere in `s`. */
  ghost predicate Occurs(s: string, p: string) {
    exists i :: OccursAt(s, p, i)
  }

  /**
   * `s.find(p, from)`: the first index at or after `from` where `p` occurs, or
   * `None` (npos) when there is none, also when `from` is past the end.
   */
  function Find(s: string, p: string, from: nat): (r: Option<nat>)
    requires p != []
    decreases |s| - from
    ensures r.Some? ==> from <= r.value && OccursAt(s, p, r.value)
    ensures forall i :: from <= i && (r.None? || i < r.value) ==> !OccursAt(s, p, i)
  {
    if from + |p| > |s| then None
    else if s[from..from + |p|] == p then Some(from)
    else Find(s, p, from + 1)
  }

  /** `Find` from the start answers `Occurs`. */
  lemma FindOccurs(s: string, p: string)
    requires p != []
    ensures Find(s, p, 0).Some? <==> Occurs(s, p)
  {
    if Occurs(s, p) {
      var i :| OccursAt(s, p, i);
      assert 0 <= i;
    }
  }

  /** When `p` occurs at `k` and nowhere between `from` and `k`, `Find` returns `k`. */
  lemma FindIs(s: string, p: string, from: nat, k: nat)
    requires p != [] && from <= k && OccursAt(s, p, k)
    requires forall i :: from <= i < k ==> !OccursAt(s, p, i)
    ensures Find(s, p, from) == Some(k)
  {
  }

  /** The first occurrence of a single character is its first index. */
  lemma FindChar(s: string, c: char, from: nat, k: nat)
    requires from <= k < |s| && s[k] == c
    requires forall i :: from <= i < k ==> s[i] != c
    ensures Find(s, [c], from) == Some(k)
  {
    assert s[k..k + 1] == [c];
    forall i | from <= i < k ensures !OccursAt(s, [c], i) {
      assert s[i..i + 1] == [s[i]];
    }
    FindIs(s, [c], from, k);
  }

  /** A piece `v` free of `c` at `start`, followed by `c`: the first `c` from `start` on ends the piece. */
  lemma FindAfterPiece(s: string, start: nat, v: string, c: char)
    requires c !in v && start + |v| < |s|
    requires s[start..start + |v|] == v && s[start + |v|] == c
    ensures Find(s, [c], start) == Some(start + |v|)
  {
    forall i | start <= i < start + |v| ensures s[i] != c {
      assert s[i] == s[start..start + |v|][i - start];
    }
    FindChar(s, c, start, start + |v|);
  }

  /** A character that does not occur from `from` on is not found. */
  lemma FindCharNone(s: string, c: char, from: nat)
    requires forall i :: from <= i < |s| ==> s[i] != c
    ensures Find(s, [c], from) == None
  {
    forall i | from <= i ensures !OccursAt(s, [c], i) {
      if i < |s| {
        assert s[i..i + 1] == [s[i]];
      }
    }
  }

  /** A pattern with a character absent from `s` is not found. */
  lemma FindAbsentChar(s: string, p: string, j: nat, from: nat)
    requires j < |p| && p[j] !in s
    ensures Find(s, p, from) == None
  {
    forall i | from <= i ensures !OccursAt(s, p, i) {
      if i + |p| <= |s| {
        assert s[i..i + |p|][j] == s[i + j];
      }
    }
  }

  /**
   * A pattern whose last character occurs in `s` only at `k` can only end there; when
   * it does not occur ending at `k`, it is not found.
   */
  lemma FindLastCharOnly(s: string, p: string, k: int)
    requires p != [] && forall i :: 0 <= i < |s| && i != k ==> s[i] != p[|p| - 1]
    requires !OccursAt(s, p, k + 1 - |p|)
    ensures Find(s, p, 0) == None
  {
    forall i | 0 <= i ensures !OccursAt(s, p, i) {
      if i + |p| <= |s| && i != k + 1 - |p| {
        assert s[i..i + |p|][|p| - 1] == s[i + |p| - 1];
      }
    }
  }

  /** A pattern occurring at `k`, with no earlier occurrence of its first character from `from` on, is found at `k`. */
  lemma FindAtFirstChar(s: string, p: string, from: nat, k: nat)
    requires p != [] && from <= k && OccursAt(s, p, k)
    requires forall i :: from <= i < k ==> s[i] != p[0]
    ensures Find(s, p, from) == Some(k)
  {
    forall i | from <= i < k ensures !OccursAt(s, p, i) {
      assert i + |p| <= |s| ==> s[i..i + |p|][0] == s[i];
    }
    FindIs(s, p, from, k);
  }

  /** A pattern found in a slice of `s` is found in `s`. */
  lemma FindInSlice(s: string, p: string, a: nat, b: nat)
    requires p != [] && a <= b <= |s| && Find(s[a..b], p, 0).Some?
    ensures Find(s, p, 0).Some?
  {
    var k := Find(s[a..b], p, 0).value;
    forall j | 0 <= j < |p| ensures s[a + k + j] == p[j] {
      assert s[a..b][k..k + |p|][j] == p[j];
    }
    assert s[a + k..a + k + |p|] == p;
    assert OccursAt(s, p, a + k);
  }

  /** A pattern found in a suffix of `s` is found in `s`. */
  lemma FindInSuffix(s: string, p: string, a: nat)
    requires p != [] && a <= |s| && Find(s[a..], p, 0).Some?
    ensures Find(s, p, 0).Some?
  {
    var k := Find(s[a..], p, 0).value;
    assert s[a..][k..k + |p|] == s[a + k..a + k + |p|];
    assert OccursAt(s, p, a + k);
  }

  /** Linear search as in `std::find` and the source's for-loops over vectors. */
  function Contains<T(==)>(xs: seq<T>, x: T): (r: bool)
    ensures r <==> x in xs
  {
    if xs == [] then false
    else xs[0] == x || Contains(xs[1..], x)
  }

  /** The elements of `xs` are pairwise distinct. */
  predicate NoDuplicates<T(==)>(xs: seq<T>) {
    forall i, j :: 0 <= i < j < |xs| ==> xs[i] != xs[j]
  }

  /** Number of occurrences of `c` in `s`. */
  function Count(s: string, c: char): nat {
    if s == [] then 0 else (if s[0] == c then 1 else 0) + Count(s[1..], c)
  }

  lemma {:induction false} CountAppend(a: string, b: string, c: char)
    ensures Count(a + b, c) == Count(a, c) + Count(b, c)
  {
    if a != [] {
      assert (a + b)[0] == a[0];
      assert (a + b)[1..] == a[1..] + b;
      CountAppend(a[1..], b, c);
    } else {
      assert a + b == b;
    }
  }

  /** `c` does not occur in `s` exactly when its count is zero. */
  lemma {:induction false} CountZero(s: string, c: char)
    ensures Count(s, c) == 0 <==> c !in s
  {
    if s != [] {
      CountZero(s[1..], c);
      assert s == [s[0]] + s[1..];
    }
  }
}
