/** Rounding sizes up to an alignment: `std::lcm`, the divide form of data_strategy.cc and
    cache2_hal_aio.cc, and the mask form of multi_share.cpp, in 64-bit unsigned arithmetic. */
module Alignment {
  import opened Machine
  import opened Whole

  /** `kAddressAlignment`, `va_alignment`: 1 GiB. */
  const GIB: nat := 0x4000_0000

  predicate CommonMultiple(a: nat, b: nat, m: nat)
    requires a > 0 && b > 0
  {
    m % a == 0 && m % b == 0
  }

  /** The least common multiple that is at least `m`. */
  function LcmFrom(a: nat, b: nat, m: nat): (r: nat)
    requires a > 0 && b > 0 && 0 < m <= a * b
    ensures m <= r <= a * b && CommonMultiple(a, b, r)
    ensures forall k :: m <= k < r ==> !CommonMultiple(a, b, k)
    decreases a * b - m
  {
    if CommonMultiple(a, b, m) then m
    else (ProductIsCommon(a, b); LcmFrom(a, b, m + 1))
  }

  lemma ProductIsCommon(a: nat, b: nat)
    requires a > 0 && b > 0
    ensures CommonMultiple(a, b, a * b)
  {
    MultipleMod(a, b);
    MultipleMod(b, a);
    assert a * b == b * a;
  }

  lemma MultipleMod(a: nat, k: nat)
    requires a > 0
    ensures (a * k) % a == 0
  {
    var q := (a * k) / a;
    assert a * k == a * q + (a * k) % a;
    NonzeroMultiple(a, k - q);
  }

  function Lcm(a: nat, b: nat): (r: nat)
    requires a > 0 && b > 0
    ensures 0 < r <= a * b && CommonMultiple(a, b, r)
    ensures forall k :: 0 < k < r ==> !CommonMultiple(a, b, k)
  {
    NonzeroMultiple(a, b);
    LcmFrom(a, b, 1)
  }

  /** Every common multiple is a multiple of the least one. */
  lemma LcmDivides(a: nat, b: nat, m: nat)
    requires a > 0 && b > 0 && CommonMultiple(a, b, m)
    ensures m % Lcm(a, b) == 0
  {
    var l := Lcm(a, b);
    ModOfMod(m, l, a);
    ModOfMod(m, l, b);
    var r := m % l;
    assert r < l && CommonMultiple(a, b, r);
  }

  /** Taking a remainder by a multiple of `a` does not change divisibility by `a`. */
  lemma ModOfMod(m: nat, l: nat, a: nat)
    requires a > 0 && l > 0 && l % a == 0 && m % a == 0
    ensures (m % l) % a == 0
  {
    var q := m / l;
    var p := l / a;
    var t := m / a;
    assert m == l * q + m % l && l == a * p && m == a * t;
    assert m % l == a * t - a * p * q;
    assert a * p * q == a * (p * q);
    assert m % l == a * (t - p * q);
    if t - p * q < 0 {
      NonzeroMultiple(a, t - p * q);
    }
    MultipleMod(a, t - p * q);
  }

  lemma SmallMultiple(l: nat, a: nat)
    requires 0 < l && 0 < a
    ensures l % a == 0 ==> l >= a
  {
  }

  /** A granularity that divides 1 GiB does not change the alignment. */
  lemma DividingGranularity(g: nat)
    requires g > 0 && GIB % g == 0
    ensures Lcm(GIB, g) == GIB
  {
    assert CommonMultiple(GIB, g, GIB);
    var l := Lcm(GIB, g);
    SmallMultiple(l, GIB);
  }

  /** `(d + a - 1) / a * a` in 64-bit arithmetic. */
  function RoundUp(d: nat, a: nat): nat
    requires 0 < a <= WORD
  {
    var q: nat := (d + a - 1) % WORD / a;
    q * a
  }

  /** Without a wrap, rounding up gives the least multiple that covers the data. */
  lemma RoundUpLeast(d: nat, a: nat)
    requires 0 < a <= WORD && d + a - 1 < WORD
    ensures d <= RoundUp(d, a) < d + a
    ensures RoundUp(d, a) % a == 0
    ensures forall m: nat :: m % a == 0 && m >= d ==> RoundUp(d, a) <= m
  {
    var x := d + a - 1;
    assert x % WORD == x;
    var q := x / a;
    assert x == a * q + x % a;
    assert RoundUp(d, a) == q * a == a * q;
    MultipleMod(a, q);
    forall m: nat | m % a == 0 && m >= d ensures RoundUp(d, a) <= m {
      var t := m / a;
      assert m == a * t;
      NonzeroMultiple(a, q - t);
      assert a * (q - t) == a * q - m < a;
    }
  }

  /** Exactly when it wraps, the rounded size no longer covers the data. */
  lemma CoversIffNoWrap(d: nat, a: nat)
    requires 0 < a <= WORD && d < WORD
    ensures RoundUp(d, a) >= d <==> d + a - 1 < WORD
  {
    var x := (d + a - 1) % WORD;
    if d + a - 1 < WORD {
      RoundUpLeast(d, a);
    } else {
      assert x == d + a - 1 - WORD;
      assert x / a * a <= x by {
        assert x == a * (x / a) + x % a;
      }
    }
  }

  /** `rankStride_`: the data size rounded up to lcm(1 GiB, granularity). */
  function RankStride(dataBytes: nat, granularity: nat): nat
    requires granularity > 0 && Lcm(GIB, granularity) < WORD
  {
    RoundUp(dataBytes, Lcm(GIB, granularity))
  }

  /** When nothing wraps, the stride is the least common multiple of 1 GiB and the granularity that
      covers the data. */
  lemma StrideLeast(dataBytes: nat, g: nat)
    requires g > 0 && Lcm(GIB, g) < WORD && dataBytes + Lcm(GIB, g) - 1 < WORD
    ensures CommonMultiple(GIB, g, RankStride(dataBytes, g)) && RankStride(dataBytes, g) >= dataBytes
    ensures forall m: nat :: CommonMultiple(GIB, g, m) && m >= dataBytes ==> RankStride(dataBytes, g) <= m
  {
    var l := Lcm(GIB, g);
    RoundUpLeast(dataBytes, l);
    var r := RankStride(dataBytes, g);
    assert r == l * (r / l);
    Divides(l, r / l, GIB);
    Divides(l, r / l, g);
    forall m: nat | CommonMultiple(GIB, g, m) && m >= dataBytes ensures r <= m {
      LcmDivides(GIB, g, m);
    }
  }

  lemma Divides(l: nat, k: nat, a: nat)
    requires a > 0 && l % a == 0
    ensures (l * k) % a == 0
  {
    var p := l / a;
    assert l == a * p;
    assert l * k == a * (p * k);
    MultipleMod(a, p * k);
  }

  /** Ranks that ended up with different page sizes still agree on the length of every mapping, as
      long as both granularities divide 1 GiB. */
  lemma StridesAgree(dataBytes: nat, g: nat, h: nat)
    requires g > 0 && h > 0 && GIB % g == 0 && GIB % h == 0
    ensures Lcm(GIB, g) == Lcm(GIB, h) == GIB
    ensures RankStride(dataBytes, g) == RankStride(dataBytes, h)
  {
    DividingGranularity(g);
    DividingGranularity(h);
  }

  /** The stride of a single byte is the alignment. */
  lemma StrideOfOne(g: nat)
    requires g > 0 && Lcm(GIB, g) < WORD
    ensures RankStride(1, g) == Lcm(GIB, g)
  {
    var l := Lcm(GIB, g);
    assert l / l == 1;
  }

  /** The data size is itself a wrapped product. The stride covers the true size exactly when neither the
      product nor the addition of the alignment wraps. */
  lemma StrideCovers(bytes: nat, g: nat)
    requires g > 0 && Lcm(GIB, g) < WORD
    ensures RankStride(bytes % WORD, g) >= bytes <==> bytes + Lcm(GIB, g) - 1 < WORD
  {
    CoversIffNoWrap(bytes % WORD, Lcm(GIB, g));
    StrideBelow(bytes % WORD, Lcm(GIB, g));
  }

  lemma StrideBelow(d: nat, a: nat)
    requires 0 < a <= WORD
    ensures RoundUp(d, a) < WORD
  {
    var x := (d + a - 1) % WORD;
    assert x == a * (x / a) + x % a;
  }

  /** For the granularities of 4 KiB, 2 MiB or 1 GiB pages, and all others that divide 1 GiB. */
  lemma StrideCoversGib(bytes: nat, g: nat)
    requires g > 0 && GIB % g == 0
    ensures Lcm(GIB, g) == GIB
    ensures RankStride(bytes % WORD, g) >= bytes <==> bytes + GIB - 1 < WORD
  {
    DividingGranularity(g);
    StrideCovers(bytes, g);
  }

  /** The two ways to miss: slots of 8 GiB, 2^31 + 1 of them, wrap the product and get a stride of one
      slot; one slot of 2^64 - 1 bytes wraps the addition and gets a stride of nothing. */
  lemma StrideMisses(g: nat)
    requires g > 0 && GIB % g == 0
    ensures Lcm(GIB, g) == GIB
    ensures RankStride(0x2_0000_0000 * 0x8000_0001 % WORD, g) == 0x2_0000_0000
    ensures RankStride((WORD - 1) * 1 % WORD, g) == 0
  {
    DividingGranularity(g);
    assert 0x2_0000_0000 * 0x8000_0001 == WORD + 0x2_0000_0000;
    assert (0x2_0000_0000 + GIB - 1) / GIB == 8;
    assert (WORD - 1 + GIB - 1) % WORD == GIB - 2;
  }

  /* ---- the mask form ---- */

  /** Bitwise and. */
  function And(a: nat, b: nat): nat
    decreases a
  {
    if a == 0 || b == 0 then 0 else 2 * And(a / 2, b / 2) + (if a % 2 == 1 && b % 2 == 1 then 1 else 0)
  }

  lemma {:induction false} AndAllOnes(x: nat, w: nat)
    requires x < Pow2(w)
    ensures And(x, Pow2(w) - 1) == x
  {
    if w > 0 && x > 0 {
      AndAllOnes(x / 2, w - 1);
      assert (Pow2(w) - 1) / 2 == Pow2(w - 1) - 1 && (Pow2(w) - 1) % 2 == 1;
    }
  }

  lemma {:induction false} PowMonotone(k: nat, w: nat)
    requires k <= w
    ensures Pow2(k) <= Pow2(w)
  {
    if k < w {
      PowMonotone(k, w - 1);
    }
  }

  /** Masking with `~(2^k - 1)` in `w` bits clears the low `k` bits. */
  lemma AndMask(x: nat, k: nat, w: nat)
    requires k <= w && x < Pow2(w)
    ensures Pow2(k) <= Pow2(w)
    ensures And(x, Pow2(w) - Pow2(k)) == x - x % Pow2(k)
  {
    PowMonotone(k, w);
    AndClearsLow(x, k, w);
    LowIsRemainder(x, k);
  }

  /** The number made of the lowest `k` bits. */
  function Low(x: nat, k: nat): nat {
    if k == 0 then 0 else 2 * Low(x / 2, k - 1) + x % 2
  }

  lemma {:induction false} AndClearsLow(x: nat, k: nat, w: nat)
    requires k <= w && x < Pow2(w) && Pow2(k) <= Pow2(w)
    ensures And(x, Pow2(w) - Pow2(k)) == x - Low(x, k)
  {
    if k == 0 {
      AndAllOnes(x, w);
    } else {
      AndClearsLow(x / 2, k - 1, w - 1);
      AndEven(x, Pow2(w) - Pow2(k));
      assert (Pow2(w) - Pow2(k)) / 2 == Pow2(w - 1) - Pow2(k - 1);
    }
  }

  lemma {:induction false} LowIsRemainder(x: nat, k: nat)
    ensures Low(x, k) == x % Pow2(k)
  {
    if k == 0 {
      assert x % 1 == 0;
    } else {
      LowIsRemainder(x / 2, k - 1);
      HalvedRemainder(x, Pow2(k - 1));
    }
  }

  /** One bit of an and with an even mask. */
  lemma AndEven(x: nat, m: nat)
    requires m % 2 == 0
    ensures And(x, m) == 2 * And(x / 2, m / 2)
  {
    if x == 0 || m == 0 {
      assert And(x, m) == 0 && And(x / 2, m / 2) == 0;
    }
  }

  lemma HalvedRemainder(x: nat, p: nat)
    requires p > 0
    ensures x % (2 * p) == 2 * (x / 2 % p) + x % 2
  {
    var q := x / 2 / p;
    var r := x / 2 % p;
    assert x / 2 == p * q + r;
    assert x == 2 * p * q + (2 * r + x % 2);
    assert 2 * r + x % 2 < 2 * p;
    var q' := x / (2 * p);
    assert x == 2 * p * q' + x % (2 * p);
    assert 2 * p * q' - 2 * p * q == 2 * p * (q' - q);
    NonzeroMultiple(2 * p, q' - q);
  }

  /** `(total + va_alignment - 1) & ~(va_alignment - 1)`. */
  function MaskUp(total: nat): nat {
    And((total + GIB - 1) % WORD, WORD - GIB)
  }

  /** The guards of multi_share.cpp on block size and number of blocks. */
  predicate SizesAccepted(bytes: nat, count: nat) {
    && 0 < count <= 64
    && bytes <= (WORD - 1) / count
    && bytes * count <= WORD - 1 - (GIB - 1)
  }

  /** Under the guards neither the product nor the sum wraps, the mask form is the divide form, and every
      slice lies inside the reservation. */
  lemma MaskIsDivide(bytes: nat, count: nat, owner: nat)
    requires SizesAccepted(bytes, count) && owner < count
    ensures bytes * count < WORD && bytes * count + GIB - 1 < WORD
    ensures MaskUp(bytes * count) == RoundUp(bytes * count, GIB)
    ensures owner * bytes + bytes <= bytes * count <= MaskUp(bytes * count)
  {
    RowFits(owner, count, bytes);
    MaskRounds(bytes * count);
    RoundUpLeast(bytes * count, GIB);
  }

  /** The mask form and the divide form give the same, wrapping or not. */
  lemma MaskRounds(total: nat)
    ensures MaskUp(total) == RoundUp(total, GIB)
  {
    var x: nat := (total + GIB - 1) % WORD;
    MaskClears(x);
  }

  lemma MaskClears(x: nat)
    requires x < WORD
    ensures And(x, WORD - GIB) == x / GIB * GIB
  {
    Widths();
    AndMask(x, 30, 64);
    assert x == GIB * (x / GIB) + x % GIB;
  }
}
