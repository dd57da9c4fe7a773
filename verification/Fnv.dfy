/**
 The 32-bit FNV hash of the Lua hash library (src/lib/builtin/hash.cpp).
*/
module Fnv {
  import opened Common

  const PRIME: int := 16777619
  const INVERSE: int := 899433627
  const OFFSET: Word := 2166136261

  /** `std::uint32_t` and `unsigned char`. */
  type Word = x: int | 0 <= x < 0x1_0000_0000
  type Byte = x: int | 0 <= x < 256

  // ----- exclusive-or, bit by bit from the lowest

  function Xor(a: nat, b: nat): nat {
    if a == 0 && b == 0 then 0 else (a + b) % 2 + 2 * Xor(a / 2, b / 2)
  }

  lemma {:induction false} XorTwice(a: nat, b: nat)
    ensures Xor(Xor(a, b), b) == a
  {
    if a == 0 && b == 0 {
    } else {
      XorTwice(a / 2, b / 2);
      XorHalves(a, b);
      XorHalves(Xor(a, b), b);
      Parity(Xor(a, b), a, b);
    }
  }

  lemma Parity(x: nat, a: nat, b: nat)
    requires x % 2 == (a + b) % 2
    ensures (x + b) % 2 == a % 2
  {
  }

  lemma XorHalves(a: nat, b: nat)
    ensures Xor(a, b) % 2 == (a + b) % 2 && Xor(a, b) / 2 == Xor(a / 2, b / 2)
  {
    if a == 0 && b == 0 {
    } else {
      LowBit((a + b) % 2, Xor(a / 2, b / 2));
    }
  }

  lemma LowBit(bit: nat, x: nat)
    requires bit < 2
    ensures (bit + 2 * x) % 2 == bit && (bit + 2 * x) / 2 == x
  {
  }

  function Pow2(n: nat): nat {
    if n == 0 then 1 else 2 * Pow2(n - 1)
  }

  lemma {:induction false} XorBits(a: nat, b: nat, n: nat)
    requires a < Pow2(n) && b < Pow2(n)
    ensures Xor(a, b) < Pow2(n)
  {
    if n == 0 {
    } else {
      XorBits(a / 2, b / 2, n - 1);
      XorHalves(a, b);
    }
  }

  lemma Pow2Is32()
    ensures Pow2(32) == TWO_32
  {
    assert Pow2(8) == 256;
    assert Pow2(16) == 65536;
    assert Pow2(24) == 16777216;
  }

  lemma XorIsWord(h: Word, b: Byte)
    ensures Xor(h, b) < TWO_32
  {
    Pow2Is32();
    XorBits(h, b, 32);
  }

  // ----- one turn of the loop

  /** Unsigned multiplication wraps around. */
  function Mul(h: Word, k: nat): Word {
    (h * k) % TWO_32
  }

  /** `h = (h * 16777619) ^ p[i]` */
  function Step(h: Word, b: Byte): Word {
    XorIsWord(Mul(h, PRIME), b);
    Xor(Mul(h, PRIME), b)
  }

  /** Undoes it: 899433627 is the inverse of the prime modulo 2^32. */
  function Unstep(h: Word, b: Byte): Word {
    XorIsWord(h, b);
    Mul(Xor(h, b), INVERSE)
  }

  /** Multiplying by a factor and then by its inverse gives the word back. */
  lemma MulInverse(h: Word, k: nat, inverse: nat, turns: nat)
    requires k * inverse == 1 + turns * TWO_32
    ensures Mul(Mul(h, k), inverse) == h
  {
    var q, r := h * k / TWO_32, Mul(h, k);
    calc {
      r * inverse;
      (h * k - q * TWO_32) * inverse;
      h * (k * inverse) - q * inverse * TWO_32;
      h * (1 + turns * TWO_32) - q * inverse * TWO_32;
      (h * turns - q * inverse) * TWO_32 + h;
    }
    RemainderUnique(r * inverse, h * turns - q * inverse, h);
  }

  lemma MulBack(h: Word)
    ensures Mul(Mul(h, PRIME), INVERSE) == h && Mul(Mul(h, INVERSE), PRIME) == h
  {
    var turns := 3513497;
    assert PRIME * INVERSE == 1 + turns * TWO_32;
    MulInverse(h, PRIME, INVERSE, turns);
    MulInverse(h, INVERSE, PRIME, turns);
  }

  /** For a fixed byte the step is a bijection on 32-bit states. */
  lemma StepIsBijection(h: Word, b: Byte)
    ensures Unstep(Step(h, b), b) == h && Step(Unstep(h, b), b) == h
  {
    MulBack(h);
    XorTwice(Mul(h, PRIME), b);
    XorIsWord(h, b);
    MulBack(Xor(h, b));
    XorTwice(h, b);
  }

  lemma {:induction false} XorCommutes(a: nat, b: nat)
    ensures Xor(a, b) == Xor(b, a)
  {
    if a == 0 && b == 0 {
    } else {
      XorCommutes(a / 2, b / 2);
    }
  }

  /** From one state, different bytes lead to different states. */
  lemma BytesSeparate(h: Word, b: Byte, c: Byte)
    requires b != c
    ensures Step(h, b) != Step(h, c)
  {
    var g := Mul(h, PRIME);
    XorCommutes(g, b);
    XorCommutes(g, c);
    XorTwice(b, g);
    XorTwice(c, g);
  }

  // ----- the hash

  /** The state after a series of bytes. */
  function Run(h: Word, s: seq<Byte>): Word {
    if s == [] then h else Step(Run(h, s[..|s| - 1]), s[|s| - 1])
  }

  /** What `fnv` pushes for a Lua string: the string is viewed through its C string,
      so nothing from the first zero byte on is hashed. */
  function Hash(s: seq<Byte>): Word {
    Run(OFFSET, CString(s, 0))
  }

  method FnvHash(str: seq<Byte>) returns (h: Word)
    ensures h == Hash(str)
  {
    var p := CString(str, 0);
    h := OFFSET;
    for i := 0 to |p|
      invariant h == Run(OFFSET, p[..i])
    {
      assert p[..i + 1][..i] == p[..i];
      XorIsWord(Mul(h, PRIME), p[i]);
      h := Xor(Mul(h, PRIME), p[i]);
    }
    assert p[..|p|] == p;
  }

  lemma {:induction false} RunConcat(h: Word, s: seq<Byte>, t: seq<Byte>)
    ensures Run(h, s + t) == Run(Run(h, s), t)
  {
    if t == [] {
      assert s + t == s;
    } else {
      assert (s + t)[..|s + t| - 1] == s + t[..|t| - 1];
      RunConcat(h, s, t[..|t| - 1]);
    }
  }

  /** A common suffix never makes two different states collide. */
  lemma {:induction false} SuffixSeparates(g: Word, h: Word, s: seq<Byte>)
    ensures Run(g, s) == Run(h, s) <==> g == h
  {
    if s == [] {
    } else {
      var n := |s| - 1;
      SuffixSeparates(g, h, s[..n]);
      StepIsBijection(Run(g, s[..n]), s[n]);
      StepIsBijection(Run(h, s[..n]), s[n]);
    }
  }

  lemma {:induction false} CStringConcat(s: seq<Byte>, t: seq<Byte>)
    ensures CString(s + t, 0) == if 0 in s then CString(s, 0) else s + CString(t, 0)
  {
    if s == [] {
      assert s + t == t;
    } else {
      assert (s + t)[1..] == s[1..] + t;
      CStringConcat(s[1..], t);
      assert s == [s[0]] + s[1..];
    }
  }

  /** Nothing after a zero byte is hashed. */
  lemma ZeroByteEnds(s: seq<Byte>, t: seq<Byte>)
    ensures Hash(s + [0] + t) == Hash(s)
  {
    CStringConcat(s + [0], t);
    CStringConcat(s, [0]);
    assert CString([0], 0) == [];
    if 0 !in s { CStringConcat(s, []); assert s + [] == s; }
  }

  lemma ZeroInPrefix(pre: seq<Byte>, s: seq<Byte>, t: seq<Byte>)
    requires 0 in pre
    ensures Hash(pre + s + t) == Hash(pre)
  {
    Regroup(pre, s, t);
    CStringConcat(pre, s + t);
  }

  /** The bytes `t` lead from state `h` back to it. */
  predicate LeadsBack(h: Word, t: seq<Byte>) {
    Run(h, t) == h
  }

  lemma Regroup(x: seq<Byte>, y: seq<Byte>, z: seq<Byte>)
    ensures x + y + z == x + (y + z)
  {
  }

  lemma CleanUpTo(pre: seq<Byte>, b: Byte, post: seq<Byte>)
    requires 0 !in pre && b != 0
    ensures CString(pre + [b] + post, 0) == pre + [b] + CString(post, 0)
  {
    var p := pre + [b];
    assert 0 !in p;
    CStringConcat(p, post);
  }

  lemma HashOf(pre: seq<Byte>, b: Byte, post: seq<Byte>)
    requires 0 !in pre && b != 0
    ensures Hash(pre + [b] + post) == Run(Run(OFFSET, pre), [b] + CString(post, 0))
  {
    var t := CString(post, 0);
    CleanUpTo(pre, b, post);
    Regroup(pre, [b], t);
    RunConcat(OFFSET, pre, [b] + t);
  }

  lemma HashOfClean(pre: seq<Byte>)
    requires 0 !in pre
    ensures Hash(pre) == Run(OFFSET, pre)
  {
    CStringConcat(pre, []);
    assert pre + [] == pre;
  }

  lemma NonZeroBytesSeparate(pre: seq<Byte>, b: Byte, c: Byte, post: seq<Byte>)
    requires b != c && b != 0 && c != 0 && 0 !in pre
    ensures Hash(pre + [b] + post) != Hash(pre + [c] + post)
  {
    var t, h := CString(post, 0), Run(OFFSET, pre);
    HashOf(pre, b, post);
    HashOf(pre, c, post);
    RunConcat(h, [b], t);
    RunConcat(h, [c], t);
    assert [b][..0] == [] && [c][..0] == [];
    BytesSeparate(h, b, c);
    SuffixSeparates(Run(h, [b]), Run(h, [c]), t);
  }

  /** Two strings that differ in exactly one byte hash differently exactly when no zero
      byte stands before it and, should one of the two bytes be zero, the other one and
      what follows it do not lead the hash back to where it was. */
  lemma OneByteSeparates(pre: seq<Byte>, b: Byte, c: Byte, post: seq<Byte>)
    requires b != c
    ensures
      var h, t := Run(OFFSET, pre), CString(post, 0);
      Hash(pre + [b] + post) != Hash(pre + [c] + post) <==>
        && 0 !in pre
        && (c == 0 ==> !LeadsBack(h, [b] + t))
        && (b == 0 ==> !LeadsBack(h, [c] + t))
  {
    if 0 in pre {
      ZeroInPrefix(pre, [b], post);
      ZeroInPrefix(pre, [c], post);
    } else if b == 0 {
      ZeroByteEnds(pre, post);
      HashOfClean(pre);
      HashOf(pre, c, post);
    } else if c == 0 {
      ZeroByteEnds(pre, post);
      HashOfClean(pre);
      HashOf(pre, b, post);
    } else {
      NonZeroBytesSeparate(pre, b, c, post);
    }
  }

  /** Two strings of equal length that differ in one byte and collide. */
  lemma ZeroByteHidesDifference()
    ensures [0, 1] != [0, 2] && Hash([0, 1]) == Hash([0, 2])
  {
    assert [] + [0] + [1] == [0, 1] && [] + [0] + [2] == [0, 2];
    ZeroByteEnds([], [1]);
    ZeroByteEnds([], [2]);
    assert [0, 1][1] != [0, 2][1];
  }

  // ----- known hashes

  lemma XorLow(q: nat, a: nat, b: nat, n: nat)
    requires a < Pow2(n) && b < Pow2(n)
    ensures Xor(q * Pow2(n) + a, b) == q * Pow2(n) + Xor(a, b)
  {
    if n == 0 {
      XorZero(q);
    } else {
      var x := q * Pow2(n) + a;
      assert x == 2 * (q * Pow2(n - 1)) + a by { assert q * (2 * Pow2(n - 1)) == 2 * (q * Pow2(n - 1)); }
      HalfOf(q * Pow2(n - 1), a);
      XorLow(q, a / 2, b / 2, n - 1);
      XorHalves(x, b);
      XorHalves(a, b);
      SameParity(q * Pow2(n - 1), a, b);
    }
  }

  lemma HalfOf(k: nat, a: nat)
    ensures (2 * k + a) / 2 == k + a / 2
  {
  }

  lemma SameParity(k: nat, a: nat, b: nat)
    ensures (2 * k + a + b) % 2 == (a + b) % 2
  {
  }

  lemma {:induction false} XorZero(a: nat)
    ensures Xor(a, 0) == a
  {
    if a > 0 { XorZero(a / 2); }
  }

  /** One step, computed on the lowest byte. */
  lemma StepBy(h: Word, b: Byte, m: Word)
    requires m == Mul(h, PRIME)
    ensures Step(h, b) == m - m % 256 + Xor(m % 256, b)
  {
    PowOf8();
    XorLow(m / 256, m % 256, b, 8);
  }

  lemma PowOf8()
    ensures Pow2(8) == 256
  {
  }

  lemma RunSnoc(h: Word, s: seq<Byte>, b: Byte)
    ensures Run(h, s + [b]) == Step(Run(h, s), b)
  {
    assert (s + [b])[..|s|] == s;
  }

  lemma {:induction false} XorSelf(a: nat)
    ensures Xor(a, a) == 0
  {
    if a > 0 { XorSelf(a / 2); }
  }

  /** A byte that equals the lowest byte of the product clears it. */
  lemma ClearingStep(h: Word, b: Byte, q: nat, m: Word)
    requires h * PRIME == q * TWO_32 + m && m % 256 == b
    ensures Step(h, b) == m - b
  {
    RemainderUnique(h * PRIME, q, m);
    StepBy(h, b, m);
    XorSelf(b);
  }

  /** The hash of nothing is the offset basis, and that of the byte 31 follows from it
      and from the prime. */
  lemma KnownHashes(b: Byte, start: Word, m: Word)
    requires b == 31 && start == 2166136261 && m == 84696351
    ensures Hash([]) == start && Hash([b]) == m - b
  {
    HashOfClean([]);
    HashOfClean([b]);
    RunSnoc(start, [], b);
    ClearingStep(start, b, 8461673, m);
    assert [] + [b] == [b];
  }
}
