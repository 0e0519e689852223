/** The seeded word pattern of common.hpp, and the loops that write it and check it.

    A word is a 64-bit unsigned integer. Products wrap modulo 2^64; exclusive-or is defined
    bit by bit, so that nothing depends on a bit-vector encoding. */
module Pattern {
  import opened Machine
  import opened Whole

  const GOLDEN: nat := 0x9e37_79b9_7f4a_7c15
  /** The inverse of GOLDEN modulo WORD. */
  const INVERSE: nat := 0xf1de_83e1_9937_733d

  /** Bitwise exclusive-or of two naturals. */
  function Xor(a: nat, b: nat): nat
    decreases a + b
  {
    if a == 0 && b == 0 then 0
    else 2 * Xor(a / 2, b / 2) + (a % 2 + b % 2) % 2
  }

  lemma {:induction false} XorBound(a: nat, b: nat, k: nat)
    requires a < Pow2(k) && b < Pow2(k)
    ensures Xor(a, b) < Pow2(k)
  {
    if k > 0 {
      XorBound(a / 2, b / 2, k - 1);
    }
  }

  /** The two defining equations, also where both operands are zero. */
  lemma XorStep(a: nat, b: nat)
    ensures Xor(a, b) / 2 == Xor(a / 2, b / 2)
    ensures Xor(a, b) % 2 == (a % 2 + b % 2) % 2
  {
  }

  /** Bit `k` of a number, counted from the lowest. */
  function Bit(x: nat, k: nat): (b: nat)
    ensures b < 2
  {
    if k == 0 then x % 2 else Bit(x / 2, k - 1)
  }

  /** Each bit of the result is set if and only if the two bits differ. */
  lemma {:induction false} XorBits(a: nat, b: nat, k: nat)
    ensures Bit(Xor(a, b), k) == 1 <==> Bit(a, k) != Bit(b, k)
    decreases k
  {
    XorStep(a, b);
    if k > 0 {
      XorBits(a / 2, b / 2, k - 1);
    }
  }

  /** Exclusive-or with the same operand twice gives the original back. */
  lemma {:induction false} XorCancels(a: nat, b: nat)
    ensures Xor(Xor(a, b), b) == a
    decreases a + b
  {
    if a == 0 && b == 0 {
    } else {
      XorCancels(a / 2, b / 2);
      XorStep(a, b);
      XorStep(Xor(a, b), b);
      ParityCancels(a % 2, b % 2);
    }
  }

  lemma ParityCancels(a: nat, b: nat)
    requires a < 2 && b < 2
    ensures ((a + b) % 2 + b) % 2 == a
  {
  }

  /** Word `i` of a buffer filled with `seed`. */
  function PatternWord(i: nat, seed: word): word {
    XorBoundWord(i * GOLDEN % WORD, seed);
    Xor(i * GOLDEN % WORD, seed)
  }

  /** A pattern word differs from the wrapped product exactly in the bits that the seed sets. */
  lemma PatternBits(i: nat, seed: word, k: nat)
    ensures Bit(PatternWord(i, seed), k) != Bit(i * 0x9e37_79b9_7f4a_7c15 % WORD, k) <==> Bit(seed, k) == 1
  {
    XorBits(i * GOLDEN % WORD, seed, k);
  }

  lemma XorBoundWord(a: word, b: word)
    ensures Xor(a, b) < WORD
  {
    Widths();
    XorBound(a, b, 64);
  }

  /** A whole buffer of `n` words filled with `seed`. */
  function PatternBlock(seed: word, n: nat): seq<word> {
    seq(n, i requires 0 <= i < n => PatternWord(i, seed))
  }

  /** The remainder of Euclidean division is unique. */
  lemma ModShift(x: nat, y: int, m: nat)
    requires x < m
    ensures (x + m * y) % m == x
  {
    var a := x + m * y;
    var q := a / m;
    assert a == m * q + a % m;
    assert x - a % m == m * (q - y);
    NonzeroMultiple(m, q - y);
  }

  /** Multiplication by GOLDEN modulo 2^64 is undone by multiplication with INVERSE. */
  lemma GoldenUnmultiplies(i: word)
    ensures i * GOLDEN % WORD * INVERSE % WORD == i
  {
    var q := i * GOLDEN / WORD;
    var p := i * GOLDEN % WORD;
    var k := 10771413168148108919;
    assert GOLDEN * INVERSE == 1 + WORD * k;
    calc {
      p * INVERSE;
    ==
      (i * GOLDEN - WORD * q) * INVERSE;
    ==
      i * (GOLDEN * INVERSE) - WORD * (q * INVERSE);
    ==
      i + WORD * (i * k - q * INVERSE);
    }
    ModShift(i, i * k - q * INVERSE, WORD);
  }

  /** No two positions of one filled buffer hold the same word. */
  lemma PatternPositionsDistinct(i: word, j: word, seed: word)
    requires i != j
    ensures PatternWord(i, seed) != PatternWord(j, seed)
  {
    if PatternWord(i, seed) == PatternWord(j, seed) {
      XorCancels(i * GOLDEN % WORD, seed);
      XorCancels(j * GOLDEN % WORD, seed);
      GoldenUnmultiplies(i);
      GoldenUnmultiplies(j);
    }
  }

  /** Buffers filled with different seeds differ in every word, the first included. */
  lemma PatternSeedsDistinct(i: nat, s: word, t: word)
    requires s != t
    ensures PatternWord(i, s) != PatternWord(i, t)
  {
    var a := i * GOLDEN % WORD;
    XorCommutes(a, s);
    XorCommutes(a, t);
    XorCancels(s, a);
    XorCancels(t, a);
  }

  lemma {:induction false} XorCommutes(a: nat, b: nat)
    ensures Xor(a, b) == Xor(b, a)
    decreases a + b
  {
    if a == 0 && b == 0 {
    } else {
      XorCommutes(a / 2, b / 2);
    }
  }

  /** Two filled buffers of at least one word are equal only when their seeds are. */
  lemma BlocksEqualIffSeedsEqual(s: word, t: word, n: nat)
    requires n > 0
    ensures PatternBlock(s, n) == PatternBlock(t, n) <==> s == t
  {
    if s != t {
      PatternSeedsDistinct(0, s, t);
      assert PatternBlock(s, n)[0] != PatternBlock(t, n)[0];
    }
  }

  /** `fill`: overwrites every word of the buffer, in place. */
  method Fill(p: array<word>, seed: word)
    modifies p
    ensures p[..] == PatternBlock(seed, p.Length)
  {
    for i := 0 to p.Length
      invariant forall k :: 0 <= k < i ==> p[k] == PatternWord(k, seed)
    {
      p[i] := PatternWord(i, seed);
    }
  }

  /** `verify`: stops at the first word that differs (the exception) or accepts. */
  method Verify(p: array<word>, seed: word) returns (ok: bool, at: nat)
    ensures ok <==> p[..] == PatternBlock(seed, p.Length)
    ensures !ok ==> at < p.Length && p[at] != PatternWord(at, seed)
    ensures !ok ==> p[..at] == PatternBlock(seed, p.Length)[..at]
  {
    at := 0;
    while at < p.Length
      invariant at <= p.Length
      invariant forall k :: 0 <= k < at ==> p[k] == PatternWord(k, seed)
    {
      if p[at] != PatternWord(at, seed) {
        assert p[..][at] != PatternBlock(seed, p.Length)[at];
        return false, at;
      }
      at := at + 1;
    }
    return true, at;
  }
}
