/** Unsigned decimal numbers as text: printing, zero padding, and reading back. */
module Decimal {
  import opened Machine

  datatype Option<+T> = None | Some(value: T)

  predicate IsDigit(c: char) { '0' <= c <= '9' }

  predicate AllDigits(s: string) { forall i :: 0 <= i < |s| ==> IsDigit(s[i]) }

  function DigitChar(d: nat): char
    requires d < 10
  {
    ('0' as int + d) as char
  }

  /** `%zu`. */
  function Print(n: nat): (s: string)
    ensures |s| > 0 && AllDigits(s)
  {
    if n < 10 then [DigitChar(n)] else Print(n / 10) + [DigitChar(n % 10)]
  }

  /** Reads digits; leading zeros are fine. */
  function Value(s: string): nat
    requires AllDigits(s)
  {
    if s == [] then 0
    else Value(s[..|s| - 1]) * 10 + (s[|s| - 1] as int - '0' as int)
  }

  lemma {:induction false} ValueOfPrint(n: nat)
    ensures Value(Print(n)) == n
  {
    if n >= 10 {
      ValueOfPrint(n / 10);
      var s := Print(n);
      assert s[..|s| - 1] == Print(n / 10);
    } else {
      assert Print(n)[..0] == [];
    }
  }

  function Zeros(n: nat): (s: string)
    ensures |s| == n && AllDigits(s)
  {
    seq(n, _ => '0')
  }

  /** `%0<width>zu`: as many digits as the number needs, and zeros in front up to `width`. */
  function Pad(n: nat, width: nat): (s: string)
    ensures AllDigits(s) && |s| > 0
    ensures |s| == if |Print(n)| < width then width else |Print(n)|
  {
    var s := Print(n);
    if |s| >= width then s else Zeros(width - |s|) + s
  }

  lemma {:induction false} ZerosCountForNothing(k: nat, s: string)
    requires AllDigits(s)
    ensures AllDigits(Zeros(k) + s) && Value(Zeros(k) + s) == Value(s)
    decreases |s|, k
  {
    var t := Zeros(k) + s;
    if s == [] {
      if k > 0 {
        assert t[..|t| - 1] == Zeros(k - 1) + [];
        ZerosCountForNothing(k - 1, []);
      } else {
        assert t == [];
      }
    } else {
      assert t[..|t| - 1] == Zeros(k) + s[..|s| - 1];
      ZerosCountForNothing(k, s[..|s| - 1]);
    }
  }

  lemma ValueOfPad(n: nat, width: nat)
    ensures Value(Pad(n, width)) == n
  {
    ValueOfPrint(n);
    if |Print(n)| < width {
      ZerosCountForNothing(width - |Print(n)|, Print(n));
    }
  }

  function Pow10(k: nat): nat { if k == 0 then 1 else 10 * Pow10(k - 1) }

  /** A number prints with at most k digits exactly if it is below 10^k. */
  lemma {:induction false} PrintLength(n: nat, k: nat)
    requires k > 0
    ensures |Print(n)| <= k <==> n < Pow10(k)
  {
    if k == 1 {
      assert Pow10(1) == 10 * Pow10(0);
    } else if n >= 10 {
      PrintLength(n / 10, k - 1);
    } else {
      Pow10Positive(k - 1);
    }
  }

  lemma Pow10Positive(k: nat)
    ensures Pow10(k) >= 1
  {
  }

  /** Length and worth fix the digits, so `Pad` is the only text of its length for its number. */
  lemma {:induction false} SameDigits(s: string, t: string)
    requires AllDigits(s) && AllDigits(t) && |s| == |t| && Value(s) == Value(t)
    ensures s == t
  {
    if s != [] {
      var k := |s| - 1;
      SameDigits(s[..k], t[..k]);
      assert s == s[..k] + [s[k]] && t == t[..k] + [t[k]];
    }
  }

  /** A text of k digits is worth less than 10^k, and no less than 10^(k-1) unless it starts with a zero. */
  lemma {:induction false} ValueBounds(s: string)
    requires AllDigits(s)
    ensures Value(s) < Pow10(|s|)
    ensures s != [] && s[0] != '0' ==> Value(s) >= Pow10(|s| - 1)
  {
    if s != [] {
      ValueBounds(s[..|s| - 1]);
    }
  }

  /** `Pad` is the only text with its three properties: it is worth `n`, it has `width` digits at least,
      and it has no more than those unless it needs them. */
  lemma PadIsTheOnly(s: string, n: nat, width: nat)
    requires AllDigits(s) && s != [] && Value(s) == n && |s| >= width
    requires |s| > width && |s| > 1 ==> s[0] != '0'
    ensures s == Pad(n, width)
  {
    ValueBounds(s);
    PrintLength(n, |s|);
    if |s| > width && |s| > 1 {
      PrintLength(n, |s| - 1);
    }
    ValueOfPad(n, width);
    SameDigits(s, Pad(n, width));
  }

  /** Different numbers print differently. */
  lemma PrintInjective(m: nat, n: nat)
    requires Print(m) == Print(n)
    ensures m == n
  {
    ValueOfPrint(m);
    ValueOfPrint(n);
  }

  /** The digits at the front of a text. */
  function Digits(s: string): (d: string)
    ensures |d| <= |s| && AllDigits(d) && d == s[..|d|]
    ensures |d| < |s| ==> !IsDigit(s[|d|])
  {
    if s == [] || !IsDigit(s[0]) then [] else [s[0]] + Digits(s[1..])
  }

  lemma {:induction false} DigitsOf(d: string, rest: string)
    requires AllDigits(d) && (rest == [] || !IsDigit(rest[0]))
    ensures Digits(d + rest) == d
  {
    if d == [] {
      assert d + rest == rest;
    } else {
      assert (d + rest)[1..] == d[1..] + rest;
      DigitsOf(d[1..], rest);
    }
  }

  /** `number` of cli.hpp: digits only, and no more than fits 64 bits. */
  function Number(text: string): Option<nat> {
    if text == [] || !AllDigits(text) then None
    else if Value(text) >= WORD then None
    else Some(Value(text))
  }
}
