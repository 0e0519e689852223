/** The image of a whole buffer made of text records, the loop that checks it, and the display of raw
    bytes in messages (cache2_hal_aio.cc). */
module TextImage {
  import opened Machine
  import opened Decimal
  import opened TextRecord
  import opened Whole

  function ToByte(c: char): byte { c as int % 256 }

  /** The record that covers byte `k`. */
  function RecordStart(k: nat): (r: nat)
    ensures r <= k < r + SIZE
  {
    DivModAtMost(k, SIZE);
    k - Mod(k, SIZE)
  }

  /** Byte `k` of the buffer in a given iteration. */
  function ImageByte(k: nat, iteration: nat, opt: Options): byte
    requires opt.Valid() && k < opt.Bytes() && iteration < opt.iterations
  {
    HeaderFits(RecordStart(k), iteration, opt);
    ToByte(Record(RecordStart(k), iteration, opt)[k - RecordStart(k)])
  }

  function Image(iteration: nat, opt: Options): (image: seq<byte>)
    requires opt.Valid() && iteration < opt.iterations
    ensures |image| == opt.Bytes()
  {
    seq(opt.Bytes(), k requires 0 <= k < opt.Bytes() => ImageByte(k, iteration, opt))
  }

  lemma {:induction false} StartOf(offset: nat, j: nat)
    requires Mod(offset, SIZE) == 0 && j < SIZE
    ensures RecordStart(offset + j) == offset
  {
    if offset >= SIZE {
      StartOf(offset - SIZE, j);
      assert offset + j - SIZE == offset - SIZE + j;
    }
  }

  /** A record and the part of the image that it covers. */
  lemma ImageAt(offset: nat, iteration: nat, opt: Options, image: seq<byte>, record: string)
    requires opt.Valid() && iteration < opt.iterations && image == Image(iteration, opt)
    requires offset < |image| && Mod(offset, SIZE) == 0
    requires |Header(offset, iteration, opt)| < SIZE && record == Record(offset, iteration, opt)
    ensures forall k :: offset <= k < offset + SIZE && k < |image| ==> image[k] == ToByte(record[k - offset])
  {
    forall k | offset <= k < offset + SIZE && k < |image|
      ensures image[k] == ToByte(record[k - offset])
    {
      StartOf(offset, k - offset);
      assert image[k] == ImageByte(k, iteration, opt);
    }
  }

  /** The record for a position of the buffer; none of them throws. */
  method RecordAt(offset: nat, iteration: nat, opt: Options, ghost image: seq<byte>) returns (record: array<char>)
    requires opt.Valid() && iteration < opt.iterations && image == Image(iteration, opt)
    requires offset < |image| && Mod(offset, SIZE) == 0
    ensures fresh(record) && record.Length == SIZE
    ensures forall k :: offset <= k < offset + SIZE && k < |image| ==> image[k] == ToByte(record[k - offset])
  {
    var ok;
    HeaderFits(offset, iteration, opt);
    ok, record := MakeRecord(offset, iteration, opt);
    ImageAt(offset, iteration, opt, image, record[..]);
  }

  /** memcpy of the first `length` characters of a record to `buffer + offset`. */
  method CopyRecord(buffer: array<byte>, offset: nat, record: array<char>, length: nat)
    requires offset + length <= buffer.Length && length <= record.Length
    modifies buffer
    ensures forall k :: 0 <= k < offset ==> buffer[k] == old(buffer[k])
    ensures forall k :: offset <= k < offset + length ==> buffer[k] == ToByte(record[k - offset])
    ensures forall k :: offset + length <= k < buffer.Length ==> buffer[k] == old(buffer[k])
  {
    for j := 0 to length
      invariant forall k :: 0 <= k < offset ==> buffer[k] == old(buffer[k])
      invariant forall k :: offset <= k < offset + j ==> buffer[k] == ToByte(record[k - offset])
      invariant forall k :: offset + j <= k < buffer.Length ==> buffer[k] == old(buffer[k])
    {
      buffer[offset + j] := ToByte(record[j]);
    }
  }

  /** Fills the buffer record by record; the last one may be cut short. */
  method FillBuffer(buffer: array<byte>, iteration: nat, opt: Options)
    requires opt.Valid() && iteration < opt.iterations && buffer.Length == opt.Bytes()
    modifies buffer
    ensures buffer[..] == Image(iteration, opt)
  {
    ghost var image := Image(iteration, opt);
    var offset, bytes := 0, buffer.Length;
    while offset < bytes
      invariant Mod(offset, SIZE) == 0
      invariant forall k :: 0 <= k < offset && k < bytes ==> buffer[k] == image[k]
    {
      var record := RecordAt(offset, iteration, opt, image);
      var length := if SIZE < bytes - offset then SIZE else bytes - offset;
      CopyRecord(buffer, offset, record, length);
      offset := offset + SIZE;
    }
  }

  /** Number of positions below `n` where two sequences differ. */
  function Differences(a: seq<byte>, b: seq<byte>, n: nat): nat
    requires n <= |a| && n <= |b|
  {
    if n == 0 then 0 else Differences(a, b, n - 1) + (if a[n - 1] == b[n - 1] then 0 else 1)
  }

  lemma {:induction false} NoDifferences(a: seq<byte>, b: seq<byte>, n: nat)
    requires n <= |a| && n <= |b|
    ensures Differences(a, b, n) == 0 <==> a[..n] == b[..n]
  {
    if n > 0 {
      NoDifferences(a, b, n - 1);
      assert a[..n] == a[..n - 1] + [a[n - 1]] && b[..n] == b[..n - 1] + [b[n - 1]];
    }
  }

  lemma NoneAtAll(a: seq<byte>, b: seq<byte>)
    requires |a| == |b|
    ensures Differences(a, b, |a|) == 0 <==> a == b
  {
    NoDifferences(a, b, |a|);
    assert a[..|a|] == a && b[..|b|] == b;
  }

  /** The first position from `lo` on where the sequences differ, or `hi`. */
  function FirstIn(a: seq<byte>, b: seq<byte>, lo: nat, hi: nat): (r: nat)
    requires lo <= hi && hi <= |a| && hi <= |b|
    ensures lo <= r <= hi && (r < hi ==> a[r] != b[r])
    ensures forall k :: lo <= k < r ==> a[k] == b[k]
    decreases hi - lo
  {
    if lo == hi || a[lo] != b[lo] then lo else FirstIn(a, b, lo + 1, hi)
  }

  function Least(a: nat, b: nat): nat { if a < b then a else b }

  /** The first difference of each bad record from `offset` on. */
  function BadFrom(a: seq<byte>, b: seq<byte>, offset: nat): seq<nat>
    requires |a| == |b|
    decreases |a| - offset
  {
    if offset >= |a| then []
    else
      var end := Least(offset + SIZE, |a|);
      var at := FirstIn(a, b, offset, end);
      (if at < end then [at] else []) + BadFrom(a, b, offset + SIZE)
  }

  /** No record is bad exactly when nothing differs; and the first report is the very first difference. */
  lemma {:induction false} BadFromMeans(a: seq<byte>, b: seq<byte>, offset: nat)
    requires |a| == |b|
    ensures BadFrom(a, b, offset) == [] <==> forall k :: offset <= k < |a| ==> a[k] == b[k]
    ensures BadFrom(a, b, offset) != [] ==>
      var k := BadFrom(a, b, offset)[0];
      offset <= k < |a| && a[k] != b[k] && forall i :: offset <= i < k ==> a[i] == b[i]
    decreases |a| - offset
  {
    if offset < |a| {
      BadFromMeans(a, b, offset + SIZE);
    }
  }

  /** The log holds at most 16 reports. */
  function Logged(all: seq<nat>): seq<nat> { if |all| <= 16 then all else all[..16] }

  /** The buffer from `offset` to `end` against the record expected there: the number of differing
      bytes and the position of the first (`end` if there is none). */
  method CheckRecord(buffer: array<byte>, offset: nat, end: nat, record: array<char>, ghost image: seq<byte>)
      returns (found: nat, at: nat)
    requires offset <= end <= buffer.Length == |image| && end - offset <= record.Length
    requires forall k :: offset <= k < end ==> image[k] == ToByte(record[k - offset])
    ensures Differences(buffer[..], image, end) == Differences(buffer[..], image, offset) + found
    ensures at == FirstIn(buffer[..], image, offset, end) && (found == 0 <==> at == end)
  {
    found, at := 0, end;
    for k := offset to end
      invariant Differences(buffer[..], image, k) == Differences(buffer[..], image, offset) + found
      invariant offset <= at <= end && (found == 0 <==> at == end)
      invariant FirstIn(buffer[..], image, offset, end) == if at < end then at else FirstIn(buffer[..], image, k, end)
    {
      if buffer[k] != ToByte(record[k - offset]) {
        if at == end {
          at := k;
        }
        found := found + 1;
      }
    }
  }

  /** Builds the record for one position and checks it. */
  method CheckAt(buffer: array<byte>, offset: nat, iteration: nat, opt: Options, ghost image: seq<byte>)
      returns (found: nat, at: nat)
    requires opt.Valid() && iteration < opt.iterations && image == Image(iteration, opt)
    requires offset < |image| == buffer.Length && Mod(offset, SIZE) == 0
    ensures var end := Least(offset + SIZE, |image|);
            && Differences(buffer[..], image, end) == Differences(buffer[..], image, offset) + found
            && at == FirstIn(buffer[..], image, offset, end) && (found == 0 <==> at == end)
  {
    var record := RecordAt(offset, iteration, opt, image);
    found, at := CheckRecord(buffer, offset, Least(offset + SIZE, buffer.Length), record, image);
  }

  /** One more bad record; the log keeps the first 16. */
  method Report(reported: seq<nat>, at: nat, ghost all: seq<nat>) returns (more: seq<nat>)
    requires reported == Logged(all)
    ensures more == Logged(all + [at])
  {
    more := if |reported| < 16 then reported + [at] else reported;
  }

  /** One record of the check: counts its differing bytes and reports its first one. */
  method CheckNext(buffer: array<byte>, offset: nat, iteration: nat, opt: Options, mismatches: nat, reported: seq<nat>,
                   ghost image: seq<byte>, ghost all: seq<nat>)
      returns (counted: nat, logged: seq<nat>, ghost found: seq<nat>)
    requires opt.Valid() && iteration < opt.iterations && image == Image(iteration, opt)
    requires offset < |image| == buffer.Length && Mod(offset, SIZE) == 0
    requires mismatches == Differences(buffer[..], image, offset) && reported == Logged(all)
    ensures counted == Differences(buffer[..], image, Least(offset + SIZE, |image|)) && logged == Logged(found)
    ensures found + BadFrom(buffer[..], image, offset + SIZE) == all + BadFrom(buffer[..], image, offset)
  {
    var more, at := CheckAt(buffer, offset, iteration, opt, image);
    counted, logged, found := mismatches + more, reported, all;
    BadStep(buffer[..], image, offset, at, all);
    if more > 0 {
      logged := Report(reported, at, all);
      found := all + [at];
    }
  }

  lemma BadStep(a: seq<byte>, b: seq<byte>, offset: nat, at: nat, all: seq<nat>)
    requires offset < |a| == |b| && at == FirstIn(a, b, offset, Least(offset + SIZE, |a|))
    ensures (if at < Least(offset + SIZE, |a|) then all + [at] else all) + BadFrom(a, b, offset + SIZE)
         == all + BadFrom(a, b, offset)
  {
    var rest := BadFrom(a, b, offset + SIZE);
    assert all + [at] + rest == all + ([at] + rest);
    assert all + ([] + rest) == all + rest;
  }

  lemma NothingLeft(a: seq<byte>, b: seq<byte>, offset: nat, all: seq<nat>)
    requires |a| == |b| <= offset
    ensures all + BadFrom(a, b, offset) == all && Least(offset, |a|) == |a|
  {
  }

  lemma NextRecord(offset: nat)
    requires Mod(offset, SIZE) == 0
    ensures Mod(offset + SIZE, SIZE) == 0
  {
  }

  /** The loop over the records. */
  method CheckAll(buffer: array<byte>, iteration: nat, opt: Options, ghost image: seq<byte>)
      returns (mismatches: nat, reported: seq<nat>, ghost all: seq<nat>)
    requires opt.Valid() && iteration < opt.iterations && image == Image(iteration, opt)
    requires buffer.Length == |image|
    ensures mismatches == Differences(buffer[..], image, |image|)
    ensures all == BadFrom(buffer[..], image, 0) && reported == Logged(all)
  {
    mismatches, reported, all := 0, [], [];
    ghost var data := buffer[..];
    ghost var bad := BadFrom(data, image, 0);
    var offset, bytes := 0, buffer.Length;
    assert all + bad == bad;
    while offset < bytes
      invariant Mod(offset, SIZE) == 0
      invariant mismatches == Differences(data, image, Least(offset, bytes)) && reported == Logged(all)
      invariant all + BadFrom(data, image, offset) == bad
    {
      NextRecord(offset);
      mismatches, reported, all := CheckNext(buffer, offset, iteration, opt, mismatches, reported, image, all);
      offset := offset + SIZE;
    }
    NothingLeft(data, image, offset, all);
  }

  /** The check after loading: every differing byte is counted, and the first one of each of the first
      16 bad records is reported. */
  method CheckBuffer(buffer: array<byte>, iteration: nat, opt: Options) returns (mismatches: nat, reported: seq<nat>)
    requires opt.Valid() && iteration < opt.iterations && buffer.Length == opt.Bytes()
    ensures mismatches == Differences(buffer[..], Image(iteration, opt), opt.Bytes())
    ensures mismatches == 0 <==> buffer[..] == Image(iteration, opt)
    ensures reported == Logged(BadFrom(buffer[..], Image(iteration, opt), 0))
  {
    ghost var all;
    mismatches, reported, all := CheckAll(buffer, iteration, opt, Image(iteration, opt));
    NoneAtAll(buffer[..], Image(iteration, opt));
  }

  /** What is reported, in plain words: nothing exactly when the buffer is right, and first of all the
      first byte that is wrong. */
  lemma ReportsMean(a: seq<byte>, b: seq<byte>)
    requires |a| == |b|
    ensures Logged(BadFrom(a, b, 0)) == [] <==> a == b
    ensures a != b ==> var k := Logged(BadFrom(a, b, 0))[0]; k < |a| && a[..k] == b[..k] && a[k] != b[k]
  {
    BadFromMeans(a, b, 0);
  }

  /* ---- what the check detects ---- */

  lemma {:induction false} DigitsAreBytes(s: string)
    requires AllDigits(s)
    ensures OneByteEach(s)
  {
    forall i | 0 <= i < |s|
      ensures s[i] < 128 as char
    {
      assert IsDigit(s[i]);
    }
  }

  /** Characters that fit a byte. */
  /** ASCII, so that no character is cut and none becomes the poison. */
  predicate OneByteEach(s: string) { forall i :: 0 <= i < |s| ==> s[i] < 128 as char }

  lemma LabelledBytes(name: string, n: nat, rest: string)
    requires OneByteEach(name) && OneByteEach(rest)
    ensures OneByteEach(Labelled(name, n, rest))
  {
    DigitsAreBytes(Pad(n, 12));
  }

  lemma HeaderBytes(offset: nat, iteration: nat, opt: Options)
    requires opt.Valid()
    ensures OneByteEach(Header(offset, iteration, opt))
  {
    var f := FieldsOf(offset, iteration, opt);
    LabelledBytes(" buffer_offset=", f.offset, " | ");
    LabelledBytes(" slot_offset=", f.slotOffset, FromBuffer(f));
    LabelledBytes(" shard=", f.shard, FromSlot(f));
    LabelledBytes(" block=", f.block, FromShard(f));
    LabelledBytes("UCM iter=", f.iteration, FromBlock(f));
  }

  lemma FilledBytes(header: string, n: nat)
    requires OneByteEach(header)
    ensures OneByteEach(header + Dots(n) + "\n")
  {
  }

  /** No character of a record is cut when it becomes a byte. */
  lemma RecordBytes(offset: nat, iteration: nat, opt: Options)
    requires opt.Valid() && |Header(offset, iteration, opt)| < SIZE
    ensures OneByteEach(Record(offset, iteration, opt))
  {
    HeaderBytes(offset, iteration, opt);
    FilledBytes(Header(offset, iteration, opt), SIZE - 1 - |Header(offset, iteration, opt)|);
  }

  /** A record as it lies in the buffer. */
  predicate HoldsRecord(data: seq<byte>, at: nat, offset: nat, iteration: nat, opt: Options)
    requires opt.Valid() && |Header(offset, iteration, opt)| < SIZE && at + SIZE <= |data|
  {
    forall j :: 0 <= j < SIZE ==> data[at + j] == ToByte(Record(offset, iteration, opt)[j])
  }

  /** A full record that is stale (of another iteration) or misplaced (made for another offset) is always
      detected: the mismatch count is not zero. */
  lemma StaleDetected(data: seq<byte>, at: nat, iteration: nat, opt: Options, offset': nat, iteration': nat)
    requires opt.Valid() && iteration < opt.iterations && |data| == opt.Bytes()
    requires Mod(at, SIZE) == 0 && at + SIZE <= |data|
    requires |Header(offset', iteration', opt)| < SIZE && HoldsRecord(data, at, offset', iteration', opt)
    requires offset' != at || iteration' != iteration
    ensures Differences(data, Image(iteration, opt), |data|) > 0
  {
    var image := Image(iteration, opt);
    HeaderFits(at, iteration, opt);
    var right, wrong := Record(at, iteration, opt), Record(offset', iteration', opt);
    assert right != wrong by { RecordsDiffer(at, iteration, opt, offset', iteration'); }
    assert OneByteEach(right) by { RecordBytes(at, iteration, opt); }
    assert OneByteEach(wrong) by { RecordBytes(offset', iteration', opt); }
    ImageAt(at, iteration, opt, image, right);
    BytesDiffer(image, data, at, right, wrong);
    NoneAtAll(data, image);
  }

  lemma BytesDiffer(image: seq<byte>, data: seq<byte>, at: nat, right: string, wrong: string)
    requires |right| == |wrong| == SIZE && OneByteEach(right) && OneByteEach(wrong) && right != wrong
    requires at + SIZE <= |image| == |data|
    requires forall k :: at <= k < at + SIZE ==> image[k] == ToByte(right[k - at])
    requires forall j :: 0 <= j < SIZE ==> data[at + j] == ToByte(wrong[j])
    ensures image != data
  {
    var j :| 0 <= j < SIZE && right[j] != wrong[j];
    var k := at + j;
    assert image[k] == ToByte(right[k - at]) && data[at + j] == ToByte(wrong[j]);
  }

  /** Every byte of an image is ASCII. */
  lemma ImageIsText(k: nat, iteration: nat, opt: Options)
    requires opt.Valid() && iteration < opt.iterations && k < opt.Bytes()
    ensures ImageByte(k, iteration, opt) < 128
  {
    var at := RecordStart(k);
    HeaderFits(at, iteration, opt);
    RecordBytes(at, iteration, opt);
    var record := Record(at, iteration, opt);
    assert record[k - at] < 128 as char;
  }

  /** A byte that a load has left as the poison is always detected, wherever it is. */
  lemma PoisonDetected(data: seq<byte>, k: nat, iteration: nat, opt: Options)
    requires opt.Valid() && iteration < opt.iterations && |data| == opt.Bytes()
    requires k < |data| && data[k] == 0xff
    ensures Differences(data, Image(iteration, opt), |data|) > 0
  {
    var image := Image(iteration, opt);
    ImageIsText(k, iteration, opt);
    assert image[k] == ImageByte(k, iteration, opt);
    NoneAtAll(data, image);
  }

  /* ---- DisplayBytes ---- */

  function HexChar(d: nat): char
    requires d < 16
  {
    if d < 10 then ('0' as int + d) as char else ('a' as int + d - 10) as char
  }

  function HexValue(c: char): Option<nat> {
    if '0' <= c <= '9' then Some(c as int - '0' as int)
    else if 'a' <= c <= 'f' then Some(c as int - 'a' as int + 10)
    else None
  }

  /** Printable ASCII except backslash and double quote stays; everything else becomes `\\xNN`. */
  function Escape(c: byte): string {
    if 32 <= c <= 126 && c != 92 && c != 34 then [c as char]
    else ['\\', 'x', HexChar(c / 16), HexChar(c % 16)]
  }

  function Display(data: seq<byte>): string {
    if data == [] then [] else Display(data[..|data| - 1]) + Escape(data[|data| - 1])
  }

  /** `DisplayBytes`. */
  method DisplayBytes(data: array<byte>) returns (text: string)
    ensures text == Display(data[..])
  {
    text := [];
    for i := 0 to data.Length
      invariant text == Display(data[..i])
    {
      assert data[..i + 1][..i] == data[..i];
      text := text + Escape(data[i]);
    }
    assert data[..data.Length] == data[..];
  }

  /** Reads a displayed text back. */
  function Undisplay(s: string): Option<seq<byte>>
    decreases |s|
  {
    if s == [] then Some([])
    else if s[0] != '\\' then
      var rest := Undisplay(s[1..]);
      if rest.None? then None else Some([ToByte(s[0])] + rest.value)
    else if |s| < 4 || s[1] != 'x' || HexValue(s[2]).None? || HexValue(s[3]).None? then None
    else
      var rest := Undisplay(s[4..]);
      if rest.None? then None else Some([16 * HexValue(s[2]).value + HexValue(s[3]).value] + rest.value)
  }

  lemma {:induction false} DisplayFront(c: byte, data: seq<byte>)
    ensures Display([c] + data) == Escape(c) + Display(data)
    decreases |data|
  {
    var all := [c] + data;
    if data == [] {
      assert all[..0] == [];
    } else {
      assert all[..|all| - 1] == [c] + data[..|data| - 1];
      DisplayFront(c, data[..|data| - 1]);
    }
  }

  lemma UndisplayPlain(c: byte, rest: string)
    requires 32 <= c <= 126 && c != 92 && Undisplay(rest).Some?
    ensures Undisplay([c as char] + rest) == Some([c] + Undisplay(rest).value)
  {
    assert ([c as char] + rest)[1..] == rest;
  }

  lemma UndisplayHex(c: byte, rest: string)
    requires Undisplay(rest).Some?
    ensures Undisplay(['\\', 'x', HexChar(c / 16), HexChar(c % 16)] + rest) == Some([c] + Undisplay(rest).value)
  {
    var s := ['\\', 'x', HexChar(c / 16), HexChar(c % 16)] + rest;
    assert s[4..] == rest;
    HexInverse(c / 16);
    HexInverse(c % 16);
  }

  lemma HexInverse(d: nat)
    requires d < 16
    ensures HexValue(HexChar(d)) == Some(d)
  {
  }

  lemma UndisplayStep(c: byte, rest: string)
    requires Undisplay(rest).Some?
    ensures Undisplay(Escape(c) + rest) == Some([c] + Undisplay(rest).value)
  {
    if 32 <= c <= 126 && c != 92 && c != 34 {
      UndisplayPlain(c, rest);
    } else {
      UndisplayHex(c, rest);
    }
  }

  /** Displayed bytes can be read back exactly. */
  lemma {:induction false} DisplayInverse(data: seq<byte>)
    ensures Undisplay(Display(data)) == Some(data)
    decreases |data|
  {
    if data != [] {
      assert data == [data[0]] + data[1..];
      DisplayFront(data[0], data[1..]);
      DisplayInverse(data[1..]);
      UndisplayStep(data[0], Display(data[1..]));
    }
  }

  /** Printable, and no character that a quoted text would have to escape. */
  predicate Plain(c: int) { 32 <= c <= 126 && c != '\\' as int && c != '"' as int }

  /** How many bytes have to be escaped. */
  function Special(data: seq<byte>): nat {
    if data == [] then 0 else Special(data[..|data| - 1]) + if Plain(data[|data| - 1]) then 0 else 1
  }

  /** Only the bytes that need it are escaped, with four characters each, so a text of plain bytes is shown
      as it is; and what is shown is printable and closes no quotation. */
  lemma {:induction false} DisplayEscapesOnlySpecial(data: seq<byte>)
    ensures |Display(data)| == |data| + 3 * Special(data)
    ensures Special(data) == 0 ==> forall i :: 0 <= i < |data| ==> Display(data)[i] as int == data[i]
    ensures forall i :: 0 <= i < |Display(data)| ==> 32 <= Display(data)[i] as int <= 126 && Display(data)[i] != '"'
    decreases |data|
  {
    if data != [] {
      var k := |data| - 1;
      DisplayEscapesOnlySpecial(data[..k]);
      assert Display(data) == Display(data[..k]) + Escape(data[k]);
      EscapeIsPrintable(data[k]);
    }
  }

  lemma EscapeIsPrintable(c: byte)
    ensures forall i :: 0 <= i < |Escape(c)| ==> 32 <= Escape(c)[i] as int <= 126 && Escape(c)[i] != '"'
  {
  }
}
