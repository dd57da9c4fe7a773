/** Small vocabulary shared by the models. */
module Common {

  datatype Option<+T> = None | Some(value: T)

  /** No element occurs twice. */
  ghost predicate NoDup<T>(s: seq<T>) {
    forall i, j :: 0 <= i < j < |s| ==> s[i] != s[j]
  }

  /** The part of `s` that a C string function sees: everything before the first `zero`. */
  function CString<T(==)>(s: seq<T>, zero: T): (r: seq<T>)
    ensures r <= s && zero !in r && (|r| < |s| ==> s[|r|] == zero)
  {
    if s == [] || s[0] == zero then [] else [s[0]] + CString(s[1..], zero)
  }

  /** A list of distinct numbers below n has at most n of them, and all when it has n. */
  lemma {:induction false} Pigeonhole(c: seq<nat>, n: nat)
    requires NoDup(c) && forall j :: 0 <= j < |c| ==> c[j] < n
    ensures |c| <= n
    ensures |c| == n ==> forall id: nat :: id < n ==> id in c
    decreases n
  {
    if c != [] {
      assert c[0] < n;
      if j :| 0 <= j < |c| && c[j] == n - 1 {
        var rest := c[..j] + c[j + 1..];
        assert forall i :: 0 <= i < |rest| ==> rest[i] == if i < j then c[i] else c[i + 1];
        Pigeonhole(rest, n - 1);
        forall id: nat | id < n && |c| == n
          ensures id in c
        {
          assert id < n - 1 ==> id in rest;
        }
      } else {
        Pigeonhole(c, n - 1);
      }
    }
  }

  /** The number of 32-bit words. */
  const TWO_32: int := 0x1_0000_0000

  lemma RemainderUnique(x: int, q: int, r: int)
    requires x == q * TWO_32 + r && 0 <= r < TWO_32
    ensures x % TWO_32 == r
  {
    assert (x / TWO_32 - q) * TWO_32 == r - x % TWO_32;
  }

  /** Each value determines the next. */
  ghost predicate Iterates<S(!new)>(f: nat -> S, next: S -> S) {
    forall n: nat :: next(f(n)) == f(n + 1)
  }

  lemma {:induction false} SameOnward<S(!new)>(f: nat -> S, next: S -> S, a: nat, b: nat, m: nat)
    requires Iterates(f, next) && f(a) == f(b)
    ensures f(a + m) == f(b + m)
  {
    if m > 0 {
      SameOnward(f, next, a, b, m - 1);
      assert next(f(a + m - 1)) == f(a + m) && next(f(b + m - 1)) == f(b + m);
    }
  }

  /** Once a value has come back, all that follow have been there before. */
  lemma {:induction false} Cycle<S(!new)>(f: nat -> S, next: S -> S, a: nat, b: nat, n: nat) returns (k: nat)
    requires Iterates(f, next) && a < b && f(a) == f(b)
    ensures k < b && f(n) == f(k)
    decreases n
  {
    if n < b {
      k := n;
    } else {
      SameOnward(f, next, a, b, n - b);
      k := Cycle(f, next, a, b, n - (b - a));
    }
  }
}
