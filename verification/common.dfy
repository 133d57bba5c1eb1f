/** Small shared vocabulary: optional values, results with an error, integer
    min/max, and order-preserving removal of duplicates (LINQ's `Distinct`). */
module Common {

  /** A value that may be absent; stands for a C# `null` reference or a
      `Nullable<T>` field. */
  datatype Option<T> = None | Some(value: T)

  /** The outcome of an operation that throws on bad input: `Err` carries the
      exception that would have been raised. */
  datatype Result<T, E> = Ok(value: T) | Err(error: E)

  function Min(a: int, b: int): int { if a <= b then a else b }

  function Max(a: int, b: int): int { if a <= b then b else a }

  function MinReal(a: real, b: real): real { if a <= b then a else b }

  function MaxReal(a: real, b: real): real { if a <= b then b else a }

  /** Products with a positive factor keep away from zero. */
  lemma MulAwayFromZero(k: int, b: int)
    requires b > 0
    ensures k >= 1 ==> k * b >= b
    ensures k <= -1 ==> k * b <= -b
  {
  }

  /** Euclidean division is determined by quotient and remainder. */
  lemma DivModUnique(a: int, b: int, q: int, r: int)
    requires b > 0 && 0 <= r < b && a == q * b + r
    ensures a / b == q && a % b == r
  {
    var k := q - a / b;
    assert k * b == (a % b) - r by {
      assert a == (a / b) * b + a % b;
      assert k * b == q * b - (a / b) * b;
    }
    MulAwayFromZero(k, b);
  }

  /** Adding a multiple of the divisor does not change the remainder. */
  lemma ModAddMultiple(a: int, b: int, m: int)
    requires b > 0
    ensures (a + m * b) % b == a % b
  {
    assert a == (a / b) * b + a % b;
    assert a + m * b == (a / b + m) * b + a % b;
    DivModUnique(a + m * b, b, a / b + m, a % b);
  }

  /** No element occurs twice. */
  predicate NoDup<T(==)>(s: seq<T>) {
    forall i, j :: 0 <= i < j < |s| ==> s[i] != s[j]
  }

  /** Position of the first occurrence of `x` in `s`. */
  function FirstIndex<T(==)>(s: seq<T>, x: T): (k: nat)
    requires x in s
    ensures k < |s| && s[k] == x && x !in s[..k]
  {
    if s[0] == x then 0
    else
      var k' := FirstIndex(s[1..], x);
      assert s[..k' + 1] == [s[0]] + s[1..][..k'];
      k' + 1
  }

  /** The first occurrence of an element that already occurs in a prefix is
      found inside that prefix. */
  lemma FirstIndexInPrefix<T>(s: seq<T>, m: nat, x: T)
    requires m <= |s| && x in s[..m]
    ensures x in s
    ensures FirstIndex(s, x) == FirstIndex(s[..m], x)
  {
    var k' := FirstIndex(s[..m], x);
    assert s[..m][..k'] == s[..k'];
    FirstIndexUnique(s, x, k');
  }

  /** `FirstIndex` is the only position holding `x` with no `x` before it. */
  lemma FirstIndexUnique<T>(s: seq<T>, x: T, k: nat)
    requires k < |s| && s[k] == x && x !in s[..k]
    ensures FirstIndex(s, x) == k
  {
  }

  /** Keeps the first occurrence of every element, in the order of first
      occurrence (what LINQ's `Distinct` yields). */
  function Distinct<T(==,!new)>(s: seq<T>): (d: seq<T>)
    ensures NoDup(d)
    ensures forall x :: x in d <==> x in s
    ensures forall i, j :: 0 <= i < j < |d| ==> FirstIndex(s, d[i]) < FirstIndex(s, d[j])
    decreases |s|
  {
    if |s| == 0 then []
    else
      var init := s[..|s| - 1];
      var last := s[|s| - 1];
      var p := Distinct(init);
      assert s == init + [last];
      if last in p then
        DistinctOrderKept(s, p);
        p
      else
        DistinctOrderExtended(s, p, p + [last]);
        p + [last]
  }

  /** Helper for `Distinct`: first indices in the prefix stay first indices in
      the whole sequence. */
  lemma DistinctOrderKept<T>(s: seq<T>, p: seq<T>)
    requires |s| > 0
    requires forall i :: 0 <= i < |p| ==> p[i] in s[..|s| - 1]
    requires forall i, j :: 0 <= i < j < |p| ==> FirstIndex(s[..|s| - 1], p[i]) < FirstIndex(s[..|s| - 1], p[j])
    ensures forall i :: 0 <= i < |p| ==> p[i] in s
    ensures forall i, j :: 0 <= i < j < |p| ==> FirstIndex(s, p[i]) < FirstIndex(s, p[j])
  {
    var m := |s| - 1;
    forall i | 0 <= i < |p| ensures p[i] in s && FirstIndex(s, p[i]) == FirstIndex(s[..m], p[i]) {
      FirstIndexInPrefix(s, m, p[i]);
    }
  }

  /** Helper for `Distinct`: a fresh last element comes after everything seen
      before it. */
  lemma DistinctOrderExtended<T>(s: seq<T>, p: seq<T>, d: seq<T>)
    requires |s| > 0 && s[|s| - 1] !in s[..|s| - 1] && d == p + [s[|s| - 1]]
    requires forall i :: 0 <= i < |p| ==> p[i] in s[..|s| - 1]
    requires forall i, j :: 0 <= i < j < |p| ==> FirstIndex(s[..|s| - 1], p[i]) < FirstIndex(s[..|s| - 1], p[j])
    ensures forall i :: 0 <= i < |d| ==> d[i] in s
    ensures forall i, j :: 0 <= i < j < |d| ==> FirstIndex(s, d[i]) < FirstIndex(s, d[j])
  {
    var m := |s| - 1;
    forall i | 0 <= i < |d| ensures d[i] in s {
      if i < |p| {
        FirstIndexInPrefix(s, m, p[i]);
      }
    }
    forall i, j | 0 <= i < j < |d| ensures FirstIndex(s, d[i]) < FirstIndex(s, d[j]) {
      if j < |p| {
        FirstIndexInPrefix(s, m, p[i]);
        FirstIndexInPrefix(s, m, p[j]);
      } else {
        FreshLastComesLater(s, p[i]);
      }
    }
  }

  /** A last element not seen before occurs first after every earlier one. */
  lemma FreshLastComesLater<T>(s: seq<T>, x: T)
    requires |s| > 0 && s[|s| - 1] !in s[..|s| - 1] && x in s[..|s| - 1]
    ensures x in s && s[|s| - 1] in s
    ensures FirstIndex(s, x) < FirstIndex(s, s[|s| - 1])
  {
    var m := |s| - 1;
    FirstIndexUnique(s, s[m], m);
    FirstIndexInPrefix(s, m, x);
  }
}
