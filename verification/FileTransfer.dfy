/** What reads and writes at offsets do to whole files and to a whole buffer, in any order
    (cache2_hal_aio.cc). */
module FileTransfer {
  import opened Machine
  import opened TextRecord
  import opened Whole

  type Files = map<string, seq<byte>>

  function Content(files: Files, path: string): seq<byte> {
    if path in files then files[path] else []
  }

  function Zeros(n: nat): (s: seq<byte>)
    ensures |s| == n
  {
    seq(n, _ => 0)
  }

  /** pwrite: a hole before the offset reads as zeros, bytes after the data stay (nothing truncates). */
  function Overwrite(file: seq<byte>, offset: nat, data: seq<byte>): seq<byte> {
    if data == [] then file
    else if |file| <= offset then file + Zeros(offset - |file|) + data
    else if |file| <= offset + |data| then file[..offset] + data
    else file[..offset] + data + file[offset + |data|..]
  }

  /** One file operation of a dump. */
  datatype Op = Create(path: string) | Write(path: string, offset: nat, data: seq<byte>)

  function Step(files: Files, op: Op): Files {
    match op
    case Create(path) => files[path := Content(files, path)]
    case Write(path, offset, data) => files[path := Overwrite(Content(files, path), offset, data)]
  }

  function Apply(files: Files, trace: seq<Op>): Files {
    if trace == [] then files else Step(Apply(files, trace[..|trace| - 1]), trace[|trace| - 1])
  }

  /** `now` keeps what `before` had beyond the image, and is no longer than the longer of the two. */
  predicate Landing(before: seq<byte>, now: seq<byte>, image: seq<byte>) {
    && |before| <= |now|
    && (|now| <= |before| || |now| <= |image|)
    && forall k :: |image| <= k < |before| ==> now[k] == before[k]
  }

  predicate Has(now: seq<byte>, image: seq<byte>, lo: nat, hi: nat)
    requires hi <= |image|
  {
    lo < hi ==> hi <= |now| && forall k :: lo <= k < hi ==> now[k] == image[k]
  }

  predicate HasByte(now: seq<byte>, image: seq<byte>, k: nat)
    requires k < |image|
  {
    k < |now| && now[k] == image[k]
  }

  /** What a dump leaves in a file that held `before`: the image, then whatever was there beyond it. */
  function Overlay(before: seq<byte>, image: seq<byte>): seq<byte> {
    image + (if |before| > |image| then before[|image|..] else [])
  }

  lemma OverwriteAt(file: seq<byte>, offset: nat, data: seq<byte>, k: nat)
    requires data != []
    ensures var f := Overwrite(file, offset, data);
            && |f| == (if |file| < offset + |data| then offset + |data| else |file|)
            && (offset <= k < offset + |data| ==> f[k] == data[k - offset])
            && (k < |file| && !(offset <= k < offset + |data|) ==> f[k] == file[k])
  {
  }

  /** One write of a piece of the image. */
  lemma WriteLands(before: seq<byte>, now: seq<byte>, image: seq<byte>, offset: nat, n: nat)
    requires Landing(before, now, image) && offset + n <= |image|
    ensures var f := Overwrite(now, offset, image[offset..offset + n]);
            && Landing(before, f, image) && Has(f, image, offset, offset + n)
  {
    var data := image[offset..offset + n];
    if n > 0 {
      forall k | 0 <= k
        ensures var f := Overwrite(now, offset, data);
                && (offset <= k < offset + n ==> f[k] == image[k])
                && (|image| <= k < |before| ==> f[k] == before[k])
      {
        OverwriteAt(now, offset, data, k);
      }
      OverwriteAt(now, offset, data, 0);
    }
  }

  lemma LandedWhole(before: seq<byte>, now: seq<byte>, image: seq<byte>)
    requires Landing(before, now, image) && Has(now, image, 0, |image|)
    ensures now == Overlay(before, image)
  {
  }

  /** An operation that, if it touches `path`, writes a piece of the image in its place. */
  predicate Faithful(op: Op, path: string, image: seq<byte>) {
    op.path == path && op.Write? ==>
      op.offset + |op.data| <= |image| && op.data == image[op.offset..op.offset + |op.data|]
  }

  predicate Writes(op: Op, path: string, k: nat) {
    op.Write? && op.path == path && op.offset <= k < op.offset + |op.data|
  }

  predicate Covers(trace: seq<Op>, path: string, image: seq<byte>) {
    forall k :: 0 <= k < |image| ==> WrittenIn(trace, path, k)
  }

  predicate WrittenIn(trace: seq<Op>, path: string, k: nat) {
    exists i :: 0 <= i < |trace| && Writes(trace[i], path, k)
  }

  lemma StepLands(files: Files, op: Op, path: string, before: seq<byte>, image: seq<byte>)
    requires Faithful(op, path, image) && Landing(before, Content(files, path), image)
    ensures Landing(before, Content(Step(files, op), path), image)
  {
    if op.Write? && op.path == path {
      WriteLands(before, Content(files, path), image, op.offset, |op.data|);
    }
  }

  lemma StepByte(files: Files, op: Op, path: string, image: seq<byte>, k: nat)
    requires Faithful(op, path, image) && k < |image|
    requires Writes(op, path, k) || HasByte(Content(files, path), image, k)
    ensures HasByte(Content(Step(files, op), path), image, k)
  {
    if op.Write? && op.path == path && op.data != [] {
      OverwriteAt(Content(files, path), op.offset, op.data, k);
    }
  }

  lemma {:induction false} TraceLands(files: Files, trace: seq<Op>, path: string, image: seq<byte>, i: int, k: nat)
    requires forall j :: 0 <= j < |trace| ==> Faithful(trace[j], path, image)
    requires -1 <= i < |trace| && (i >= 0 ==> k < |image| && Writes(trace[i], path, k))
    ensures Landing(Content(files, path), Content(Apply(files, trace), path), image)
    ensures i >= 0 ==> HasByte(Content(Apply(files, trace), path), image, k)
    decreases |trace|
  {
    if trace != [] {
      var last := |trace| - 1;
      var earlier := trace[..last];
      TraceLands(files, earlier, path, image, if i < last then i else -1, k);
      StepLands(Apply(files, earlier), trace[last], path, Content(files, path), image);
      if i >= 0 {
        StepByte(Apply(files, earlier), trace[last], path, image, k);
      }
    }
  }

  /** A dump in any order, with any repeats and any mixture of pieces, leaves exactly the image over
      what the file held, as soon as every byte has been written once. */
  lemma AnyOrderLands(files: Files, trace: seq<Op>, path: string, image: seq<byte>)
    requires forall j :: 0 <= j < |trace| ==> Faithful(trace[j], path, image)
    requires Covers(trace, path, image)
    ensures Content(Apply(files, trace), path) == Overlay(Content(files, path), image)
  {
    var now := Content(Apply(files, trace), path);
    TraceLands(files, trace, path, image, -1, 0);
    forall k | 0 <= k < |image|
      ensures HasByte(now, image, k)
    {
      assert WrittenIn(trace, path, k);
      var i :| 0 <= i < |trace| && Writes(trace[i], path, k);
      TraceLands(files, trace, path, image, i, k);
    }
    FromBytes(now, image);
    LandedWhole(Content(files, path), now, image);
  }

  lemma FromBytes(now: seq<byte>, image: seq<byte>)
    requires forall k :: 0 <= k < |image| ==> HasByte(now, image, k)
    ensures Has(now, image, 0, |image|)
  {
    if |image| > 0 {
      assert HasByte(now, image, |image| - 1);
      forall k | 0 <= k < |image|
        ensures now[k] == image[k]
      {
        assert HasByte(now, image, k);
      }
    }
  }

  /** Without truncation a dump gives the exact image if and only if the file was not longer. */
  lemma ExactIffNotLonger(before: seq<byte>, image: seq<byte>)
    ensures Overlay(before, image) == image <==> |before| <= |image|
  {
  }

  /** Two traces that cover a file with the same image leave the same file, whatever engine issued them. */
  lemma EnginesAgree(files: Files, a: seq<Op>, b: seq<Op>, path: string, image: seq<byte>)
    requires forall j :: 0 <= j < |a| ==> Faithful(a[j], path, image)
    requires forall j :: 0 <= j < |b| ==> Faithful(b[j], path, image)
    requires Covers(a, path, image) && Covers(b, path, image)
    ensures Content(Apply(files, a), path) == Content(Apply(files, b), path)
  {
    AnyOrderLands(files, a, path, image);
    AnyOrderLands(files, b, path, image);
  }

  /* ---- the requests of the two engines ---- */

  /** One transfer: `len` bytes of file `block` at `offset`, buffer position `pos`. */
  datatype Io = Io(block: nat, offset: nat, pos: nat, len: nat)

  function BlockBytes(opt: Options): nat { Times(opt.shards, opt.slotBytes) }

  /** Request `i` of the asynchronous engine. */
  function Request(i: nat, opt: Options): Io
    requires opt.Valid()
  {
    Io(Div(i, opt.shards), Times(Mod(i, opt.shards), opt.slotBytes), Times(i, opt.slotBytes), opt.slotBytes)
  }

  /** The file place and the buffer place of a transfer correspond, and it stays inside its block. */
  predicate Placed(io: Io, opt: Options) {
    && io.block < opt.blocks
    && io.offset + io.len <= BlockBytes(opt)
    && io.pos == Times(io.block, BlockBytes(opt)) + io.offset
  }

  lemma RequestPlaced(i: nat, opt: Options)
    requires opt.Valid() && i < opt.Slots()
    ensures Placed(Request(i, opt), opt)
    ensures Request(i, opt).pos + opt.slotBytes <= opt.Bytes()
  {
    var b, s := Div(i, opt.shards), Mod(i, opt.shards);
    DivBelow(i, opt.blocks, opt.shards);
    DivModExact(i, opt.shards);
    TimesSplits(b, opt.shards, s, opt.slotBytes);
    TimesIsProduct(b, opt.shards);
    TimesMonotone(s + 1, opt.shards, opt.slotBytes);
    TimesNext(s, opt.slotBytes);
    TimesMonotone(i + 1, opt.Slots(), opt.slotBytes);
    TimesNext(i, opt.slotBytes);
  }

  /** The request that moves byte `k` of block `b`. */
  function RequestOf(b: nat, k: nat, opt: Options): nat
    requires opt.Valid()
  {
    Times(b, opt.shards) + Div(k, opt.slotBytes)
  }

  /** Every byte of every block is moved by exactly one request: the regions partition the files. */
  lemma RequestsPartition(b: nat, k: nat, i: nat, opt: Options)
    requires opt.Valid() && b < opt.blocks && k < BlockBytes(opt)
    ensures RequestOf(b, k, opt) < opt.Slots()
    ensures (var io := Request(i, opt); io.block == b && io.offset <= k < io.offset + io.len)
        <==> i == RequestOf(b, k, opt)
  {
    var q := Div(k, opt.slotBytes);
    DivBelow(k, opt.shards, opt.slotBytes);
    TimesMonotone(b + 1, opt.blocks, opt.shards);
    TimesNext(b, opt.shards);
    InSlot(k, Mod(i, opt.shards), opt.slotBytes);
    QuotientIs(i, opt.shards, b, q);
  }

  lemma QuotientIs(i: nat, n: nat, q: nat, r: nat)
    requires n > 0 && r < n
    ensures Div(i, n) == q && Mod(i, n) == r <==> i == Times(q, n) + r
  {
    DivModExact(i, n);
    TimesIsProduct(q, n);
    if i == Times(q, n) + r {
      Unique(i, n, q, r);
      DivModAreQuotient(i, n);
    }
  }

  /** And the same regions partition the buffer. */
  lemma RequestsPartitionBuffer(p: nat, i: nat, opt: Options)
    requires opt.Valid() && p < opt.Bytes() && i < opt.Slots()
    ensures (var io := Request(i, opt); io.pos <= p < io.pos + io.len) <==> i == Div(p, opt.slotBytes)
    ensures Div(p, opt.slotBytes) < opt.Slots()
  {
    InSlot(p, i, opt.slotBytes);
    DivBelow(p, opt.Slots(), opt.slotBytes);
  }

  lemma InSlot(k: nat, s: nat, size: nat)
    requires size > 0
    ensures Times(s, size) <= k < Times(s, size) + size <==> s == Div(k, size)
  {
    DivModExact(k, size);
    TimesIsProduct(s, size);
    TimesIsProduct(Div(k, size), size);
    if Times(s, size) <= k < Times(s, size) + size {
      Unique(k, size, s, k - Times(s, size));
      DivModAreQuotient(k, size);
    }
  }

  lemma TimesNext(a: nat, b: nat)
    ensures Times(a + 1, b) == Times(a, b) + b
  {
    TimesIsProduct(a, b);
    TimesIsProduct(a + 1, b);
  }

  lemma TimesMonotone(a: nat, c: nat, b: nat)
    requires a <= c
    ensures Times(a, b) <= Times(c, b)
  {
    TimesIsProduct(a, b);
    TimesIsProduct(c, b);
    Grows(b, a, c);
  }

  lemma TimesSplits(b: nat, n: nat, s: nat, size: nat)
    ensures Times(b * n + s, size) == Times(b, Times(n, size)) + Times(s, size)
  {
    TimesIsProduct(b * n + s, size);
    TimesIsProduct(n, size);
    TimesIsProduct(b, n * size);
    TimesIsProduct(s, size);
    Distribute(b * n, s, size);
    Associate(b, n, size);
  }

  lemma Distribute(x: nat, y: nat, size: nat)
    ensures (x + y) * size == x * size + y * size
  {
  }

  lemma Associate(x: nat, y: nat, z: nat)
    ensures x * y * z == x * (y * z)
  {
  }

  /** The whole buffer is the blocks one after the other. */
  lemma BytesAreBlocks(opt: Options)
    requires opt.Valid()
    ensures opt.Bytes() == Times(opt.blocks, BlockBytes(opt))
  {
    TimesSplits(opt.blocks, opt.shards, 0, opt.slotBytes);
    TimesIsProduct(opt.blocks, opt.shards);
    TimesIsProduct(0, opt.slotBytes);
  }
}
