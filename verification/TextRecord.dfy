/** The self-describing text of cache2_hal_aio.cc: `TextRecord`, the image of a whole buffer, the
    byte-by-byte comparison, and `DisplayBytes`. */
module TextRecord {
  import opened Decimal
  import opened Whole

  /** Sizes after option checking; every product is at most 2^40. */
  datatype Options = Options(blocks: nat, shards: nat, slotBytes: nat, iterations: nat)
  {
    const LIMIT: nat := 0x100_0000_0000

    predicate Valid() {
      && blocks > 0 && shards > 0 && slotBytes > 0
      && iterations <= LIMIT
      && blocks <= Div(LIMIT, shards)
      && Slots() <= Div(LIMIT, slotBytes)
    }

    /** Slots in the buffer. */
    function Slots(): nat { Times(blocks, shards) }

    function Bytes(): nat { Times(Slots(), slotBytes) }
  }

  const SIZE: nat := 128

  /** The numbers in a record. */
  datatype Fields = Fields(iteration: nat, block: nat, shard: nat, slotOffset: nat, offset: nat)

  function FieldsOf(offset: nat, iteration: nat, opt: Options): Fields
    requires opt.Valid()
  {
    var slot := Div(offset, opt.slotBytes);
    Fields(iteration, Div(slot, opt.shards), Mod(slot, opt.shards), Mod(offset, opt.slotBytes), offset)
  }

  /** A label and a number of at least 12 digits. */
  function Labelled(name: string, n: nat, rest: string): string { name + (Pad(n, 12) + rest) }

  function Format(f: Fields): string { Labelled("UCM iter=", f.iteration, FromBlock(f)) }

  function FromBlock(f: Fields): string { Labelled(" block=", f.block, FromShard(f)) }

  function FromShard(f: Fields): string { Labelled(" shard=", f.shard, FromSlot(f)) }

  function FromSlot(f: Fields): string { Labelled(" slot_offset=", f.slotOffset, FromBuffer(f)) }

  function FromBuffer(f: Fields): string { Labelled(" buffer_offset=", f.offset, " | ") }

  /** The formatted part of a record. */
  function Header(offset: nat, iteration: nat, opt: Options): string
    requires opt.Valid()
  {
    Format(FieldsOf(offset, iteration, opt))
  }

  function Dots(n: nat): (s: string)
    ensures |s| == n
  {
    seq(n, _ => '.')
  }

  /** A complete record: header, dots, line feed. */
  function Record(offset: nat, iteration: nat, opt: Options): (s: string)
    requires opt.Valid() && |Header(offset, iteration, opt)| < SIZE
    ensures |s| == SIZE
  {
    var header := Header(offset, iteration, opt);
    header + Dots(SIZE - 1 - |header|) + "\n"
  }

  /** Thirteen digits are enough for every field. */
  lemma FieldLength(n: nat)
    requires n <= 0x100_0000_0000
    ensures |Pad(n, 12)| <= 13
  {
    assert Pow10(4) == 10000;
    assert Pow10(8) == 10000 * 10000;
    assert Pow10(12) == 10000 * 10000 * 10000;
    assert Pow10(13) == 10 * Pow10(12);
    PrintLength(n, 13);
  }

  lemma FormatLength(f: Fields)
    ensures |Format(f)| == 54 + |Pad(f.iteration, 12)| + |Pad(f.block, 12)| + |Pad(f.shard, 12)|
                         + |Pad(f.slotOffset, 12)| + |Pad(f.offset, 12)|
  {
  }

  /** The header never overflows the record, for any accepted options. */
  lemma HeaderFits(offset: nat, iteration: nat, opt: Options)
    requires opt.Valid() && offset < opt.Bytes() && iteration < opt.iterations
    ensures |Header(offset, iteration, opt)| <= 119 < SIZE
  {
    BytesBounded(opt);
    var f := FieldsOf(offset, iteration, opt);
    DivModAtMost(offset, opt.slotBytes);
    DivModAtMost(Div(offset, opt.slotBytes), opt.shards);
    FieldLength(f.iteration);
    FieldLength(f.block);
    FieldLength(f.shard);
    FieldLength(f.slotOffset);
    FieldLength(f.offset);
    FormatLength(f);
  }

  /** The option checks bound the buffer, and nothing in it wraps. */
  lemma BytesBounded(opt: Options)
    requires opt.Valid()
    ensures opt.Bytes() == opt.blocks * opt.shards * opt.slotBytes <= opt.LIMIT
    ensures opt.shards <= opt.LIMIT && opt.slotBytes <= opt.LIMIT
  {
    TimesIsProduct(opt.blocks, opt.shards);
    TimesIsProduct(opt.Slots(), opt.slotBytes);
    FitsDivided(opt.LIMIT, opt.Slots(), opt.slotBytes);
    FitsDivided(opt.LIMIT, opt.blocks, opt.shards);
    Grows(opt.shards, 1, opt.blocks);
    Grows(opt.slotBytes, 1, opt.Slots());
  }

  lemma FitsDivided(limit: nat, n: nat, size: nat)
    requires size > 0 && n <= Div(limit, size)
    ensures n * size <= limit
  {
    DivModExact(limit, size);
    Grows(size, n, Div(limit, size));
  }

  /** snprintf into a whole buffer: what fits, then a terminating zero; the result is the full length. */
  method Snprintf(buffer: array<char>, text: string) returns (n: nat)
    requires buffer.Length > 0
    modifies buffer
    ensures n == |text|
    ensures forall k :: 0 <= k < n && k < buffer.Length - 1 ==> buffer[k] == text[k]
    ensures n < buffer.Length ==> buffer[n] == '\0'
    ensures n >= buffer.Length ==> buffer[buffer.Length - 1] == '\0'
    ensures forall k :: n < k < buffer.Length ==> buffer[k] == old(buffer[k])
  {
    n := |text|;
    var written := if n < buffer.Length then n else buffer.Length - 1;
    for i := 0 to written
      invariant forall k :: 0 <= k < i ==> buffer[k] == text[k]
      invariant forall k :: i <= k < buffer.Length ==> buffer[k] == old(buffer[k])
    {
      buffer[i] := text[i];
    }
    buffer[written] := '\0';
  }

  /** The characters of a record: the header, then dots up to the final line feed. */
  lemma RecordFrom(whole: string, header: string)
    requires |header| < SIZE && |whole| == SIZE
    requires forall k :: 0 <= k < |header| && k < SIZE - 1 ==> whole[k] == header[k]
    requires forall k :: |header| <= k < SIZE - 1 ==> whole[k] == '.'
    requires whole[SIZE - 1] == '\n'
    ensures whole == header + Dots(SIZE - 1 - |header|) + "\n"
  {
  }

  /** `TextRecord`: a header that did not fit throws. */
  method MakeRecord(offset: nat, iteration: nat, opt: Options) returns (ok: bool, record: array<char>)
    requires opt.Valid()
    ensures fresh(record) && record.Length == SIZE
    ensures ok <==> |Header(offset, iteration, opt)| < SIZE
    ensures ok ==> record[..] == Record(offset, iteration, opt)
  {
    var header := Header(offset, iteration, opt);
    ok, record := WriteRecord(header);
    if ok {
      RecordFrom(record[..], header);
    }
  }

  method WriteRecord(header: string) returns (ok: bool, record: array<char>)
    ensures fresh(record) && record.Length == SIZE
    ensures ok <==> |header| < SIZE
    ensures ok ==> forall k :: 0 <= k < |header| && k < SIZE - 1 ==> record[k] == header[k]
    ensures ok ==> forall k :: |header| <= k < SIZE - 1 ==> record[k] == '.'
    ensures ok ==> record[SIZE - 1] == '\n'
  {
    record := new char[SIZE](_ => '.');
    var n := Snprintf(record, header);
    if n >= SIZE {
      return false, record;
    }
    record[n] := '.';
    record[SIZE - 1] := '\n';
    ok := true;
  }

  /* ---- reading a record back ---- */

  /** Skips a literal. */
  function Expect(s: string, literal: string): Option<string> {
    if |literal| <= |s| && s[..|literal|] == literal then Some(s[|literal|..]) else None
  }

  /** Skips a label and reads the number after it. */
  function Skip(s: string, literal: string): Option<(nat, string)> {
    var t := Expect(s, literal);
    if t.None? then None
    else Some((Value(Digits(t.value)), t.value[|Digits(t.value)|..]))
  }

  /** The numbers in a record. */
  function Parse(s: string): Option<Fields> {
    var a := Skip(s, "UCM iter=");
    if a.None? then None else
    var b := Skip(a.value.1, " block=");
    if b.None? then None else
    var c := Skip(b.value.1, " shard=");
    if c.None? then None else
    var d := Skip(c.value.1, " slot_offset=");
    if d.None? then None else
    var e := Skip(d.value.1, " buffer_offset=");
    if e.None? then None else
    Some(Fields(a.value.0, b.value.0, c.value.0, d.value.0, e.value.0))
  }

  lemma ExpectFinds(literal: string, rest: string)
    ensures Expect(literal + rest, literal) == Some(rest)
  {
    assert (literal + rest)[|literal|..] == rest;
  }

  /** The numbers name the position: block, shard and slot offset recompose to the buffer offset. */
  lemma FieldsRecompose(offset: nat, iteration: nat, opt: Options)
    requires opt.Valid() && offset < opt.Bytes()
    ensures var f := FieldsOf(offset, iteration, opt);
            && f.offset == offset == (f.block * opt.shards + f.shard) * opt.slotBytes + f.slotOffset
            && f.block < opt.blocks && f.shard < opt.shards && f.slotOffset < opt.slotBytes
  {
    var slot := Div(offset, opt.slotBytes);
    Recompose(offset, opt.slotBytes, opt.shards);
    DivBelow(offset, opt.Slots(), opt.slotBytes);
    DivBelow(slot, opt.blocks, opt.shards);
    DivModAtMost(offset, opt.slotBytes);
    DivModAtMost(slot, opt.shards);
  }

  /** A full record can be read back: it determines the iteration and the place it was made for. */
  lemma ParseOfRecord(offset: nat, iteration: nat, opt: Options)
    requires opt.Valid() && |Header(offset, iteration, opt)| < SIZE
    ensures Parse(Record(offset, iteration, opt)) == Some(FieldsOf(offset, iteration, opt))
  {
    var f := FieldsOf(offset, iteration, opt);
    var rest := Dots(SIZE - 1 - |Header(offset, iteration, opt)|) + "\n";
    assert Record(offset, iteration, opt) == Format(f) + rest;
    ParseOfFormat(f, rest);
  }

  lemma LabelledFound(name: string, n: nat, rest: string, more: string)
    requires rest != [] && !IsDigit(rest[0])
    ensures Skip(Labelled(name, n, rest) + more, name) == Some((n, rest + more))
  {
    var d := Pad(n, 12);
    assert Labelled(name, n, rest) + more == name + (d + (rest + more));
    ExpectFinds(name, d + (rest + more));
    DigitsOf(d, rest + more);
    ValueOfPad(n, 12);
    assert (d + (rest + more))[|d|..] == rest + more;
  }

  lemma SkipIteration(f: Fields, more: string)
    ensures Skip(Format(f) + more, "UCM iter=") == Some((f.iteration, FromBlock(f) + more))
  {
    LabelledFound("UCM iter=", f.iteration, FromBlock(f), more);
  }

  lemma SkipBlock(f: Fields, more: string)
    ensures Skip(FromBlock(f) + more, " block=") == Some((f.block, FromShard(f) + more))
  {
    LabelledFound(" block=", f.block, FromShard(f), more);
  }

  lemma SkipShard(f: Fields, more: string)
    ensures Skip(FromShard(f) + more, " shard=") == Some((f.shard, FromSlot(f) + more))
  {
    LabelledFound(" shard=", f.shard, FromSlot(f), more);
  }

  lemma SkipSlot(f: Fields, more: string)
    ensures Skip(FromSlot(f) + more, " slot_offset=") == Some((f.slotOffset, FromBuffer(f) + more))
  {
    LabelledFound(" slot_offset=", f.slotOffset, FromBuffer(f), more);
  }

  lemma SkipBuffer(f: Fields, more: string)
    ensures Skip(FromBuffer(f) + more, " buffer_offset=") == Some((f.offset, " | " + more))
  {
    LabelledFound(" buffer_offset=", f.offset, " | ", more);
  }

  lemma ParseOfFormat(f: Fields, more: string)
    ensures Parse(Format(f) + more) == Some(f)
  {
    SkipIteration(f, more);
    SkipBlock(f, more);
    SkipShard(f, more);
    SkipSlot(f, more);
    SkipBuffer(f, more);
  }

  /** A stale or misplaced full record is never mistaken for the right one. */
  lemma RecordsDiffer(offset: nat, iteration: nat, opt: Options, offset': nat, iteration': nat)
    requires opt.Valid() && |Header(offset, iteration, opt)| < SIZE && |Header(offset', iteration', opt)| < SIZE
    ensures Record(offset, iteration, opt) == Record(offset', iteration', opt)
      <==> offset == offset' && iteration == iteration'
  {
    ParseOfRecord(offset, iteration, opt);
    ParseOfRecord(offset', iteration', opt);
  }
}
