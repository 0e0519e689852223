/** `list` of multi_share.cpp: comma-separated integers. */
module IntList {
  import opened Decimal

  const INT_MAX: nat := 0x7fff_ffff

  /** One entry of a list. */
  function Item(part: string): Option<nat> {
    var n := Number(part);
    if n.None? || n.value > INT_MAX then None else n
  }

  function Join(parts: seq<string>): string
    requires parts != []
  {
    if |parts| == 1 then parts[0] else parts[0] + ("," + Join(parts[1..]))
  }

  /** The text before the first comma. */
  function Head(s: string): (h: string)
    ensures |h| <= |s| && h == s[..|h|] && ',' !in h
    ensures |h| < |s| ==> s[|h|] == ','
  {
    if s == "" || s[0] == ',' then "" else [s[0]] + Head(s[1..])
  }

  function Split(s: string): (parts: seq<string>)
    ensures parts != []
    decreases |s|
  {
    var h := Head(s);
    if |h| == |s| then [h] else [h] + Split(s[|h| + 1..])
  }

  lemma {:induction false} JoinSplit(s: string)
    ensures Join(Split(s)) == s
    decreases |s|
  {
    var h := Head(s);
    if |h| < |s| {
      JoinSplit(s[|h| + 1..]);
      assert Split(s)[1..] == Split(s[|h| + 1..]);
      HeadAndTail(s);
    }
  }

  lemma HeadAndTail(s: string)
    requires |Head(s)| < |s|
    ensures s == Head(s) + ("," + s[|Head(s)| + 1..])
  {
    var k := |Head(s)|;
    assert s[k..] == [s[k]] + s[k + 1..];
    assert s == s[..k] + s[k..];
  }

  lemma {:induction false} HeadOf(h: string, rest: string)
    requires ',' !in h && (rest == "" || rest[0] == ',')
    ensures Head(h + rest) == h
  {
    if h == "" {
      assert h + rest == rest;
    } else {
      assert (h + rest)[1..] == h[1..] + rest;
      HeadOf(h[1..], rest);
    }
  }

  lemma SplitStep(h: string, tail: string)
    requires ',' !in h
    ensures Split(h + ("," + tail)) == [h] + Split(tail)
  {
    var s := h + ("," + tail);
    HeadOf(h, "," + tail);
    assert s[|h| + 1..] == tail;
  }

  lemma {:induction false} SplitJoin(parts: seq<string>)
    requires parts != [] && forall i :: 0 <= i < |parts| ==> ',' !in parts[i]
    ensures Split(Join(parts)) == parts
    decreases |parts|
  {
    if |parts| == 1 {
      HeadOf(parts[0], "");
      assert parts[0] + "" == parts[0];
    } else {
      var tail := Join(parts[1..]);
      SplitJoin(parts[1..]);
      SplitStep(parts[0], tail);
      assert parts == [parts[0]] + parts[1..];
    }
  }

  /** A text names a number if it consists of digits, at least one, worth that number, which has to be
      within `int`; leading zeros are fine. */
  ghost predicate Names(part: string, n: nat) {
    part != [] && AllDigits(part) && Value(part) == n && n <= INT_MAX
  }

  /** The meaning of a list: the texts of its numbers, in order, joined by single commas. */
  ghost predicate Denotes(value: string, out: seq<nat>) {
    exists parts: seq<string> :: parts != [] && value == Join(parts) && NameAll(parts, out)
  }

  ghost predicate NameAll(parts: seq<string>, out: seq<nat>) {
    |parts| == |out| && forall i :: 0 <= i < |parts| ==> Names(parts[i], out[i])
  }

  predicate Items(parts: seq<string>, out: seq<nat>) {
    |parts| == |out| && forall i :: 0 <= i < |parts| ==> Item(parts[i]) == Some(out[i])
  }

  /** An entry is accepted exactly with the number it names. */
  lemma ItemNames(part: string, n: nat)
    ensures Item(part) == Some(n) <==> Names(part, n)
  {
  }

  lemma ItemsName(parts: seq<string>, out: seq<nat>)
    ensures Items(parts, out) <==> NameAll(parts, out)
  {
    forall i | 0 <= i < |parts| && |parts| == |out|
      ensures Item(parts[i]) == Some(out[i]) <==> Names(parts[i], out[i])
    {
      ItemNames(parts[i], out[i]);
    }
  }

  lemma DenotesSplit(value: string, out: seq<nat>)
    ensures Denotes(value, out) <==> Items(Split(value), out)
  {
    JoinSplit(value);
    if Denotes(value, out) {
      var parts: seq<string> :| parts != [] && value == Join(parts) && NameAll(parts, out);
      SplitJoin(parts);
      ItemsName(parts, out);
    } else {
      ItemsName(Split(value), out);
    }
  }

  /** `numbers` written one after the other, padded with zeros to the given widths. */
  function Texts(numbers: seq<nat>, widths: seq<nat>): (parts: seq<string>)
    requires |widths| == |numbers|
    ensures |parts| == |numbers|
    ensures forall i :: 0 <= i < |parts| ==> parts[i] == Pad(numbers[i], widths[i])
  {
    seq(|numbers|, i requires 0 <= i < |numbers| => Pad(numbers[i], widths[i]))
  }

  /** `value` is the text a caller would write for `numbers`. */
  ghost predicate Written(value: string, numbers: seq<nat>, widths: seq<nat>) {
    && numbers != [] && |widths| == |numbers|
    && (forall i :: 0 <= i < |numbers| ==> numbers[i] <= INT_MAX)
    && value == Join(Texts(numbers, widths))
  }

  lemma WrittenDenotes(value: string, numbers: seq<nat>, widths: seq<nat>)
    requires Written(value, numbers, widths)
    ensures Denotes(value, numbers)
  {
    var parts := Texts(numbers, widths);
    forall i | 0 <= i < |parts|
      ensures Names(parts[i], numbers[i])
    {
      ValueOfPad(numbers[i], widths[i]);
    }
    assert NameAll(parts, numbers);
  }

  /** A text denotes at most one list. */
  lemma DenotesOne(value: string, a: seq<nat>, b: seq<nat>)
    requires Denotes(value, a) && Denotes(value, b)
    ensures a == b
  {
    DenotesSplit(value, a);
    DenotesSplit(value, b);
    forall i | 0 <= i < |a|
      ensures a[i] == b[i]
    {
      assert Item(Split(value)[i]) == Some(a[i]);
      assert Item(Split(value)[i]) == Some(b[i]);
    }
  }

  /** Nothing between two commas, a character that is no digit, or a number past `int`. */
  predicate Unreadable(part: string) {
    part == "" || !AllDigits(part) || Value(part) >= 0x8000_0000
  }

  /** Entry `k` of the text is not readable. */
  ghost predicate Spoiled(value: string, parts: seq<string>, k: nat) {
    && k < |parts| && value == Join(parts) && Unreadable(parts[k])
    && forall i :: 0 <= i < |parts| ==> ',' !in parts[i]
  }

  lemma SpoiledDenotesNothing(value: string, parts: seq<string>, k: nat, numbers: seq<nat>)
    requires Spoiled(value, parts, k)
    ensures !Denotes(value, numbers)
  {
    if Denotes(value, numbers) {
      DenotesSplit(value, numbers);
      SplitJoin(parts);
      assert Item(parts[k]) == Some(numbers[k]);
      ItemNames(parts[k], numbers[k]);
    }
  }

  /** What `getline` has still to deliver when `rest` is left; a comma at the very end delivers nothing. */
  function Remaining(value: string, rest: string): seq<string> {
    if rest != "" then Split(rest)
    else if value == "" || value[|value| - 1] == ',' then [""]
    else []
  }

  /** The loop of `list`. */
  method Entries(value: string) returns (out: Option<seq<nat>>)
    ensures out.Some? ==> Denotes(value, out.value)
    ensures out.None? ==> !exists numbers :: Denotes(value, numbers)
  {
    var numbers: seq<nat> := [];
    ghost var parts := Split(value);
    var rest := value;
    while rest != ""
      invariant IsRest(rest, value) && |numbers| <= |parts|
      invariant numbers == [] ==> rest == value
      invariant numbers != [] ==> value != ""
      invariant parts[|numbers|..] == Remaining(value, rest)
      invariant Items(parts[..|numbers|], numbers)
      decreases |rest|
    {
      var part := Head(rest);
      RemainingStep(value, rest, parts, |numbers|);
      rest := After(rest);
      var n := Item(part);
      if n.None? {
        NotItems(value, |numbers|);
        return None;
      }
      ItemsNext(parts, numbers, n.value);
      numbers := numbers + [n.value];
    }
    if numbers == [] || value[|value| - 1] == ',' {
      assert parts[|numbers|..][0] == parts[|numbers|];
      NotItems(value, |numbers|);
      return None;
    }
    assert parts[..|numbers|] == parts;
    DenotesSplit(value, numbers);
    out := Some(numbers);
  }

  /** `list`: it succeeds on exactly the texts that denote a list, with the numbers denoted. The numbers of
      any list, written in decimal, come back; a text with an unreadable entry is refused. */
  method List(value: string) returns (out: Option<seq<nat>>)
    ensures out.Some? ==> Denotes(value, out.value)
    ensures out.None? ==> !exists numbers :: Denotes(value, numbers)
    ensures forall numbers, widths :: Written(value, numbers, widths) ==> out == Some(numbers)
    ensures forall parts, k :: Spoiled(value, parts, k) ==> out.None?
  {
    out := Entries(value);
    forall numbers, widths | Written(value, numbers, widths)
      ensures out == Some(numbers)
    {
      WrittenDenotes(value, numbers, widths);
      if out.Some? {
        DenotesOne(value, out.value, numbers);
      }
    }
    forall parts, k | Spoiled(value, parts, k)
      ensures out.None?
    {
      if out.Some? {
        SpoiledDenotesNothing(value, parts, k, out.value);
      }
    }
  }

  predicate IsRest(rest: string, value: string) {
    |rest| <= |value| && rest == value[|value| - |rest|..]
  }

  lemma ItemsNext(parts: seq<string>, numbers: seq<nat>, n: nat)
    requires |numbers| < |parts| && Items(parts[..|numbers|], numbers) && Item(parts[|numbers|]) == Some(n)
    ensures Items(parts[..|numbers| + 1], numbers + [n])
  {
    var k := |numbers|;
    forall i | 0 <= i < k + 1
      ensures Item(parts[..k + 1][i]) == Some((numbers + [n])[i])
    {
      assert i < k ==> parts[..k][i] == parts[i];
    }
  }

  /** The text after the first comma. */
  function After(s: string): (r: string)
    ensures |r| <= |s| && (s != "" ==> |r| < |s|)
  {
    if |Head(s)| < |s| then s[|Head(s)| + 1..] else ""
  }

  lemma RemainingStep(value: string, rest: string, parts: seq<string>, k: nat)
    requires rest != "" && IsRest(rest, value)
    requires k <= |parts| && parts[k..] == Remaining(value, rest)
    ensures k < |parts| && parts[k] == Head(rest)
    ensures parts[k + 1..] == Remaining(value, After(rest)) && IsRest(After(rest), value)
  {
    var h := Head(rest);
    assert value[|value| - 1] == rest[|rest| - 1];
    assert parts[k..][1..] == parts[k + 1..] && parts[k..][0] == parts[k];
    if |h| + 1 == |rest| {
      assert Split(rest[|h| + 1..]) == [""];
    }
  }

  lemma NotItems(value: string, i: nat)
    requires i < |Split(value)| && Item(Split(value)[i]).None?
    ensures !exists numbers :: Denotes(value, numbers)
  {
    forall numbers: seq<nat>
      ensures !Denotes(value, numbers)
    {
      DenotesSplit(value, numbers);
    }
  }
}
