/** The control transport of ucm_data_strategy/ctrl_layout.h: `DESC <rank> <handle>` lines, written by
    stream insertion and read back by stream extraction. */
module CtrlLayout {
  import opened Decimal
  import opened Machine

  /** The handle value that means "not set". */
  const INVALID: nat := WORD - 1

  predicate IsSpace(c: char) { c == ' ' || c == '\t' || c == '\n' || c == '\r' || c == '\U{0B}' || c == '\U{0C}' }

  function SkipSpace(s: string): (r: string)
    ensures |r| <= |s| && (r != [] ==> !IsSpace(r[0]))
  {
    if s != [] && IsSpace(s[0]) then SkipSpace(s[1..]) else s
  }

  /** The characters before the next white space. */
  function Token(s: string): (t: string)
    ensures |t| <= |s| && t == s[..|t|]
    ensures forall i :: 0 <= i < |t| ==> !IsSpace(t[i])
    ensures |t| < |s| ==> IsSpace(s[|t|])
  {
    if s == [] || IsSpace(s[0]) then [] else [s[0]] + Token(s[1..])
  }

  /** Extraction of a text: the token and what follows it. */
  function ReadText(s: string): Option<(string, string)> {
    var r := SkipSpace(s);
    var t := Token(r);
    if t == [] then None else Some((t, r[|t|..]))
  }

  /** Extraction of a `size_t`: an optional sign, then digits; a minus sign wraps, too many digits fail. */
  function ReadNumber(s: string): Option<(nat, string)> {
    var r := SkipSpace(s);
    var signed := r != [] && (r[0] == '+' || r[0] == '-');
    var u := if signed then r[1..] else r;
    var d := Digits(u);
    if d == [] || Value(d) >= WORD then None
    else Some((if signed && r[0] == '-' then (WORD - Value(d)) % WORD else Value(d), u[|d|..]))
  }

  /** The handle in a line, if the line is a valid descriptor of the rank asked for. */
  function Accept(line: string, rank: nat): Option<nat> {
    var tag := ReadText(line);
    if tag.None? then None else
    var peer := ReadNumber(tag.value.1);
    if peer.None? then None else
    var handle := ReadText(peer.value.1);
    if handle.None? then None else
    if tag.value.0 != "DESC" || peer.value.0 != rank || ReadText(handle.value.1).Some? then None else
    var value := Number(handle.value.0);
    if value.None? || value.value == INVALID then None else value
  }

  /** The line that a rank publishes. */
  function Line(rank: nat, handle: nat): string { "DESC " + (Print(rank) + (" " + Print(handle))) }

  lemma {:induction false} TokenOf(t: string, rest: string)
    requires forall i :: 0 <= i < |t| ==> !IsSpace(t[i])
    requires rest != [] ==> IsSpace(rest[0])
    ensures Token(t + rest) == t
  {
    if t == [] {
      assert t + rest == rest;
    } else {
      assert (t + rest)[1..] == t[1..] + rest;
      TokenOf(t[1..], rest);
    }
  }

  lemma ReadTextOf(t: string, rest: string)
    requires t != [] && forall i :: 0 <= i < |t| ==> !IsSpace(t[i])
    requires rest != [] ==> IsSpace(rest[0])
    ensures ReadText(t + rest) == Some((t, rest))
  {
    assert SkipSpace(t + rest) == t + rest;
    TokenOf(t, rest);
    assert (t + rest)[|t|..] == rest;
  }

  lemma ReadNumberOf(n: nat, rest: string)
    requires n < WORD && (rest != [] ==> !IsDigit(rest[0]))
    ensures ReadNumber(" " + (Print(n) + rest)) == Some((n, rest))
  {
    var s := Print(n) + rest;
    assert IsDigit(s[0]) && !IsSpace(s[0]);
    assert (" " + s)[1..] == s;
    assert SkipSpace(s) == s && SkipSpace(" " + s) == s;
    DigitsOf(Print(n), rest);
    ValueOfPrint(n);
    assert s[|Print(n)|..] == rest;
  }

  lemma ReadTextAfterSpace(t: string)
    requires t != [] && forall i :: 0 <= i < |t| ==> !IsSpace(t[i])
    ensures ReadText(" " + t) == Some((t, ""))
  {
    assert (" " + t)[1..] == t;
    ReadTextOf(t, "");
    assert t + "" == t;
  }

  /** How a published line is read: its own rank gets its handle, unless the handle is the reserved value;
      every other rank rejects it. */
  lemma LineRoundTrip(rank: nat, handle: nat, asked: nat)
    requires rank < WORD && handle < WORD
    ensures Accept(Line(rank, handle), asked) ==
      if rank == asked && handle != INVALID then Some(handle) else None
  {
    var tail := " " + Print(handle);
    var middle := Print(rank) + tail;
    assert Line(rank, handle) == "DESC" + (" " + middle);
    ReadTextOf("DESC", " " + middle);
    ReadNumberOf(rank, tail);
    ReadTextAfterSpace(Print(handle));
    ValueOfPrint(handle);
    assert SkipSpace("") == "";
  }

  /* ---- which lines are accepted ---- */

  predicate Blank(s: string) { forall i :: 0 <= i < |s| ==> IsSpace(s[i]) }

  predicate Solid(s: string) { s != [] && forall i :: 0 <= i < |s| ==> !IsSpace(s[i]) }

  /** The texts that stand for a rank: digits within 64 bits, perhaps with a sign; a minus sign wraps. */
  ghost predicate MeansRank(text: string, rank: nat) {
    || (text != [] && AllDigits(text) && Value(text) < WORD && rank == Value(text))
    || (|text| > 1 && text[0] == '+' && AllDigits(text[1..]) && Value(text[1..]) < WORD && rank == Value(text[1..]))
    || (|text| > 1 && text[0] == '-' && AllDigits(text[1..]) && Value(text[1..]) < WORD
        && rank == (WORD - Value(text[1..])) % WORD)
  }

  /** The texts that stand for a handle: digits, and not the reserved value. */
  ghost predicate MeansHandle(text: string, handle: nat) {
    text != [] && AllDigits(text) && Value(text) == handle && handle < INVALID
  }

  /** A line is the tag, a rank and a handle, with white space between them and perhaps around them, and
      nothing else. */
  ghost predicate IsDescriptor(line: string, rank: nat, handle: nat) {
    exists a, b, c, d, r, h :: Parts(line, a, b, c, d, r, h) && MeansRank(r, rank) && MeansHandle(h, handle)
  }

  ghost predicate Parts(line: string, a: string, b: string, c: string, d: string, r: string, h: string) {
    && Blank(a) && Blank(b) && Blank(c) && Blank(d) && b != [] && c != []
    && line == a + ("DESC" + (b + (r + (c + (h + d)))))
  }

  lemma {:induction false} SkipBlank(a: string, s: string)
    requires Blank(a) && (s == [] || !IsSpace(s[0]))
    ensures SkipSpace(a + s) == s
  {
    if a == [] {
      assert a + s == s;
    } else {
      assert (a + s)[1..] == a[1..] + s;
      SkipBlank(a[1..], s);
    }
  }

  lemma {:induction false} SkippedIsBlank(s: string) returns (a: string)
    ensures Blank(a) && s == a + SkipSpace(s)
  {
    if s != [] && IsSpace(s[0]) {
      var t := SkippedIsBlank(s[1..]);
      a := [s[0]] + t;
    } else {
      a := [];
    }
  }

  lemma ReadTextAfter(a: string, t: string, rest: string)
    requires Blank(a) && Solid(t) && (rest == [] || IsSpace(rest[0]))
    ensures ReadText(a + (t + rest)) == Some((t, rest))
  {
    SkipBlank(a, t + rest);
    TokenOf(t, rest);
    assert (t + rest)[|t|..] == rest;
  }

  lemma ReadTextIs(s: string) returns (a: string)
    requires ReadText(s).Some?
    ensures var (t, rest) := ReadText(s).value;
            Blank(a) && Solid(t) && (rest == [] || IsSpace(rest[0])) && s == a + (t + rest)
  {
    a := SkippedIsBlank(s);
  }

  /** Extraction of a number from where the white space ends. */
  lemma ReadDigits(d: string, rest: string)
    requires d != [] && AllDigits(d) && (rest == [] || IsSpace(rest[0]))
    ensures Digits(d + rest) == d && (d + rest)[|d|..] == rest && IsDigit((d + rest)[0])
  {
    DigitsOf(d, rest);
  }

  lemma ReadSigned(sign: char, d: string, rest: string)
    requires (sign == '+' || sign == '-') && d != [] && AllDigits(d) && Value(d) < WORD
    requires rest == [] || IsSpace(rest[0])
    ensures ReadNumber([sign] + (d + rest)) == Some((if sign == '-' then (WORD - Value(d)) % WORD else Value(d), rest))
  {
    var s := [sign] + (d + rest);
    assert s[1..] == d + rest && s[0] == sign;
    ReadDigits(d, rest);
  }

  lemma ReadUnsigned(d: string, rest: string)
    requires d != [] && AllDigits(d) && Value(d) < WORD && (rest == [] || IsSpace(rest[0]))
    ensures ReadNumber(d + rest) == Some((Value(d), rest))
  {
    var s := d + rest;
    ReadDigits(d, rest);
    assert SkipSpace(s) == s;
    hide SkipSpace, Digits, Value, AllDigits;
  }

  lemma ReadAfterBlank(b: string, s: string)
    requires Blank(b) && s != [] && !IsSpace(s[0])
    ensures ReadNumber(b + s) == ReadNumber(s)
  {
    SkipBlank(b, s);
    SkipBlank([], s);
    assert [] + s == s;
  }

  lemma ReadNumberAfter(b: string, r: string, rest: string, n: nat)
    requires Blank(b) && MeansRank(r, n) && (rest == [] || IsSpace(rest[0]))
    ensures ReadNumber(b + (r + rest)) == Some((n, rest))
  {
    assert (r + rest)[0] == r[0];
    ReadAfterBlank(b, r + rest);
    if r[0] == '+' || r[0] == '-' {
      assert r + rest == [r[0]] + (r[1..] + rest);
      ReadSigned(r[0], r[1..], rest);
    } else {
      ReadUnsigned(r, rest);
    }
  }

  lemma SignedMeans(sign: char, d: string, n: nat)
    requires (sign == '+' || sign == '-') && d != [] && AllDigits(d) && Value(d) < WORD
    requires n == if sign == '-' then (WORD - Value(d)) % WORD else Value(d)
    ensures MeansRank([sign] + d, n)
  {
    var r := [sign] + d;
    assert r[1..] == d && r[0] == sign;
  }

  lemma ReadNumberIs(s: string) returns (b: string, r: string)
    requires ReadNumber(s).Some?
    ensures var (n, rest) := ReadNumber(s).value;
            Blank(b) && MeansRank(r, n) && (rest == [] || !IsDigit(rest[0])) && s == b + (r + rest)
  {
    b := SkippedIsBlank(s);
    var t := SkipSpace(s);
    if t[0] == '+' || t[0] == '-' {
      var u := t[1..];
      var d := Digits(u);
      r := [t[0]] + d;
      SignedMeans(t[0], d, ReadNumber(s).value.0);
      SignedSplit(t, d);
    } else {
      r := Digits(t);
      DigitsSplit(t);
    }
  }

  lemma SignedSplit(t: string, d: string)
    requires t != [] && d == Digits(t[1..])
    ensures t == [t[0]] + d + t[1..][|d|..]
  {
    DigitsSplit(t[1..]);
    assert t == [t[0]] + t[1..];
  }

  lemma DigitsSplit(u: string)
    ensures u == Digits(u) + u[|Digits(u)|..]
  {
  }

  lemma DescriptorAccepted(line: string, rank: nat, handle: nat)
    requires IsDescriptor(line, rank, handle)
    ensures Accept(line, rank) == Some(handle)
  {
    var a, b, c, d, r, h :| Parts(line, a, b, c, d, r, h) && MeansRank(r, rank) && MeansHandle(h, handle);
    var s3 := c + (h + d);
    var s2 := b + (r + s3);
    ReadTextAfter(a, "DESC", s2);
    ReadNumberAfter(b, r, s3, rank);
    ReadTextAfter(c, h, d);
    SkipBlank(d, []);
    assert d + [] == d;
  }

  lemma AcceptedDescribes(line: string, rank: nat, handle: nat)
    requires Accept(line, rank) == Some(handle)
    ensures IsDescriptor(line, rank, handle)
  {
    var a := ReadTextIs(line);
    var s2 := ReadText(line).value.1;
    var b, r := ReadNumberIs(s2);
    var s3 := ReadNumber(s2).value.1;
    var c := ReadTextIs(s3);
    var (h, d) := ReadText(s3).value;
    var e := SkippedIsBlank(d);
    assert ReadText(d).None?;
    assert SkipSpace(d) == [];
    assert e + [] == e;
    FirstOf(b, r, s3);
    FirstOf(c, h, d);
    assert Parts(line, a, b, c, d, r, h);
  }

  lemma FirstOf(b: string, r: string, rest: string)
    requires r != []
    ensures b == [] ==> (b + (r + rest))[0] == r[0]
  {
  }

  /** A line gives rank `rank` the handle `handle` if and only if it is a descriptor of the two: another tag,
      another rank, a missing or an additional word, or a handle with a sign is refused. */
  lemma AcceptsDescriptors(line: string, rank: nat, handle: nat)
    ensures Accept(line, rank) == Some(handle) <==> IsDescriptor(line, rank, handle)
  {
    if Accept(line, rank) == Some(handle) {
      AcceptedDescribes(line, rank, handle);
    }
    if IsDescriptor(line, rank, handle) {
      DescriptorAccepted(line, rank, handle);
    }
  }

  /** An acceptable line for a rank carries the handle that this rank published. */
  ghost predicate LineDelivers(line: string, desc: seq<nat>) {
    forall r: nat :: Accept(line, r).Some? ==> r < |desc| && Accept(line, r) == Some(desc[r])
  }

  ghost predicate Delivers(lines: seq<string>, desc: seq<nat>) {
    forall i :: 0 <= i < |lines| ==> LineDelivers(lines[i], desc)
  }

  /** A line that one of the ranks has published, or that no rank accepts. */
  ghost predicate Honest(line: string, desc: seq<nat>) {
    (exists r :: 0 <= r < |desc| && line == Line(r, desc[r])) || forall r: nat :: Accept(line, r).None?
  }

  /** Copying published lines, in any order, any number of times and mixed with rubbish, delivers. */
  lemma HonestDelivers(lines: seq<string>, desc: seq<nat>)
    requires |desc| <= WORD && forall r :: 0 <= r < |desc| ==> desc[r] < WORD
    requires forall i :: 0 <= i < |lines| ==> Honest(lines[i], desc)
    ensures Delivers(lines, desc)
  {
    forall i | 0 <= i < |lines|
      ensures LineDelivers(lines[i], desc)
    {
      HonestLineDelivers(lines[i], desc);
    }
  }

  lemma HonestLineDelivers(line: string, desc: seq<nat>)
    requires |desc| <= WORD && forall r :: 0 <= r < |desc| ==> desc[r] < WORD
    requires Honest(line, desc)
    ensures LineDelivers(line, desc)
  {
    if q :| 0 <= q < |desc| && line == Line(q, desc[q]) {
      forall r: nat
        ensures Accept(line, r) == if q == r && desc[q] != INVALID then Some(desc[q]) else None
      {
        LineRoundTrip(q, desc[q], r);
      }
    }
  }

  /** What a rank reads is then what the peer published. */
  lemma DeliveredIsPublished(lines: seq<string>, desc: seq<nat>, rank: nat, at: int, handle: nat)
    requires Delivers(lines, desc) && FirstAccepted(lines, rank, at, handle)
    ensures rank < |desc| && handle == desc[rank]
  {
    assert LineDelivers(lines[at], desc);
  }

  /** A published line determines the handle in it. */
  lemma LineDetermines(rank: nat, handle: nat, other: nat)
    requires Line(rank, handle) == Line(rank, other)
    ensures handle == other
  {
    var front := "DESC " + (Print(rank) + " ");
    assert Line(rank, handle) == front + Print(handle) && Line(rank, other) == front + Print(other);
    assert (front + Print(handle))[|front|..] == Print(handle) && (front + Print(other))[|front|..] == Print(other);
    PrintInjective(handle, other);
  }

  datatype Result<T> = Ok(value: T) | OutOfRange | InputClosed

  class Control {
    const rankCount: nat
    const slotCount: nat
    /** The handle that each rank publishes. */
    ghost const desc: seq<nat>
    /** Lines published so far, and lines still to be read. */
    var published: seq<string>
    var input: seq<string>

    ghost predicate Faithful()
      reads this
    {
      Delivers(input, desc)
    }

    constructor (rankCount: nat, slotsPerRank: nat, input: seq<string>, ghost desc: seq<nat>)
      ensures this.rankCount == rankCount && slotCount == rankCount * slotsPerRank % WORD
      ensures published == [] && this.input == input && this.desc == desc
    {
      this.rankCount := rankCount;
      this.desc := desc;
      slotCount := rankCount * slotsPerRank % WORD;
      published := [];
      this.input := input;
    }

    method SetRankDesc(rank: nat, handle: nat) returns (r: Result<()>)
      modifies this`published
      ensures rank >= rankCount ==> r == OutOfRange && published == old(published)
      ensures rank < rankCount ==> r == Ok(()) && published == old(published) + [Line(rank, handle)]
    {
      if rank >= rankCount {
        return OutOfRange;
      }
      published := published + [Line(rank, handle)];
      r := Ok(());
    }

    /** Reads lines until one describes the rank. The first such line decides; the lines before it are
        skipped, the lines after it stay. When the input ends first, the source throws. */
    method GetRankDesc(rank: nat) returns (r: Result<nat>)
      modifies this`input
      ensures r.OutOfRange? <==> rank >= rankCount
      ensures r.OutOfRange? ==> input == old(input)
      ensures r.InputClosed? ==> input == [] && forall i :: 0 <= i < |old(input)| ==> Accept(old(input)[i], rank).None?
      ensures r.Ok? ==> FirstAccepted(old(input), rank, |old(input)| - |input| - 1, r.value)
      ensures r.Ok? ==> input == old(input)[|old(input)| - |input|..]
      ensures old(Faithful()) ==> Faithful() && (r.Ok? ==> rank < |desc| && r.value == desc[rank])
    {
      if rank >= rankCount {
        return OutOfRange;
      }
      ghost var lines := input;
      while input != []
        invariant |input| <= |lines| && input == lines[|lines| - |input|..]
        invariant forall i :: 0 <= i < |lines| - |input| ==> Accept(lines[i], rank).None?
        decreases |input|
      {
        var line := input[0];
        input := input[1..];
        var handle := Accept(line, rank);
        if handle.Some? {
          Found(lines, |lines| - |input| - 1, rank, handle.value, desc);
          return Ok(handle.value);
        }
      }
      r := InputClosed;
    }
  }

  lemma Found(lines: seq<string>, at: nat, rank: nat, handle: nat, desc: seq<nat>)
    requires at < |lines| && Accept(lines[at], rank) == Some(handle)
    requires forall i :: 0 <= i < at ==> Accept(lines[i], rank).None?
    ensures FirstAccepted(lines, rank, at, handle)
    ensures Delivers(lines, desc) ==> Delivers(lines[at + 1..], desc) && rank < |desc| && handle == desc[rank]
  {
    if Delivers(lines, desc) {
      DeliveredIsPublished(lines, desc, rank, at, handle);
    }
  }

  predicate FirstAccepted(lines: seq<string>, rank: nat, at: int, handle: nat) {
    && 0 <= at < |lines|
    && Accept(lines[at], rank) == Some(handle)
    && forall i :: 0 <= i < at ==> Accept(lines[i], rank).None?
  }

  /** What a peer publishes is what a rank reads, whatever lines of other ranks come before it. */
  lemma PublishedIsRead(lines: seq<string>, ranks: seq<nat>, handles: seq<nat>, rank: nat, at: nat)
    requires |lines| == |ranks| == |handles| && at < |lines|
    requires forall i :: 0 <= i < |lines| ==>
      ranks[i] < WORD && handles[i] < WORD && lines[i] == Line(ranks[i], handles[i])
    requires ranks[at] == rank && forall i :: 0 <= i < at ==> ranks[i] != rank
    ensures FirstAccepted(lines, rank, at, handles[at]) <==> handles[at] != INVALID
  {
    LineRoundTrip(ranks[at], handles[at], rank);
    forall i | 0 <= i < at
      ensures Accept(lines[i], rank).None?
    {
      LineRoundTrip(ranks[i], handles[i], rank);
    }
  }
}
