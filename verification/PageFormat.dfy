/**
 The bytes of a segment file: a 128-byte file header, then pages, each an
 88-byte header followed by a slice of a chunk and zero padding.
 */
module PageFormat {
  import opened Base
  import LE = LittleEndian
  import Disk

  const HEADER := 88
  const SEG_HEADER := 128
  const SENTINEL := 0xB10B5E00

  const FLAG_DELETED: Byte := 1
  const FLAG_LAST_CHUNK: Byte := 2

  type Uint32 = x: int | 0 <= x < 0x1_0000_0000
  type Uint64 = x: int | 0 <= x < LE.TWO_64
  type Sha = b: Bytes | |b| == 32 witness seq(32, _ => 0)
  type PageSize = x: int | HEADER < x < LE.TWO_63 witness HEADER + 1

  datatype Header = Header(
    dataLen: Uint64, chunkId: Sha, blobId: Sha, chunkSeq: Uint32, totalChunks: Uint32, crc: Uint32, flags: Byte)

  /** `x` is what `b` holds at `off`. */
  predicate At(b: Bytes, off: nat, x: Bytes) {
    off + |x| <= |b| && b[off..off + |x|] == x
  }

  function Zeros(n: nat): (z: Bytes)
    ensures |z| == n
  {
    seq(n, _ => 0)
  }

  /** os.File.WriteAt: overwrites in place, extends the file where needed, and fills a gap with zeros. */
  function WriteAt(b: Bytes, off: nat, x: Bytes): (w: Bytes)
    ensures |w| == Max(|b|, off + |x|)
  {
    (if off <= |b| then b[..off] else b + Zeros(off - |b|)) + x + (if off + |x| <= |b| then b[off + |x|..] else [])
  }

  // ---- flags

  /** The bits of `a` or `b`, as the | operator on a byte. */
  function Or(a: nat, b: nat, width: nat): (r: nat)
    ensures r < Pow2(width)
  {
    if width == 0 then 0 else (if a % 2 == 1 || b % 2 == 1 then 1 else 0) + 2 * Or(a / 2, b / 2, width - 1)
  }

  function SetFlags(a: Byte, b: Byte): Byte {
    assert Pow2(8) == 2 * Pow2(7) && Pow2(7) == 2 * Pow2(6) && Pow2(6) == 2 * Pow2(5) && Pow2(5) == 2 * Pow2(4);
    assert Pow2(4) == 2 * Pow2(3) && Pow2(3) == 2 * Pow2(2) && Pow2(2) == 2 * Pow2(1);
    Or(a, b, 8)
  }

  predicate IsDeleted(flags: Byte) {
    flags % 2 == 1
  }

  /** The upper 24 bits are the page magic, the lower 8 the flags. */
  function EncodeMagic(flags: Byte): Bytes {
    LE.Put(SENTINEL + flags, 4)
  }

  function DecodeMagic(b: Bytes): Option<Byte>
    requires |b| == 4
  {
    var v := LE.Get(b);
    if v / 256 == SENTINEL / 256 then Some(v % 256) else None
  }

  // ---- headers and pages

  function EncodeHeader(h: Header): (b: Bytes)
    ensures |b| == HEADER
  {
    LE.Put(h.dataLen, 8) + h.chunkId + h.blobId + LE.Put(h.chunkSeq, 4) + LE.Put(h.totalChunks, 4)
    + LE.Put(h.crc, 4) + EncodeMagic(h.flags)
  }

  datatype HeaderError = HeaderTooShort | BadMagic

  function DecodeHeader(b: Bytes): Result<Header, HeaderError> {
    LE.Pow256Values();
    if |b| < HEADER then
      Err(HeaderTooShort)
    else
      match DecodeMagic(b[84..88])
      case None => Err(BadMagic)
      case Some(flags) =>
        Ok(Header(LE.Get(b[0..8]), b[8..40], b[40..72], LE.Get(b[72..76]), LE.Get(b[76..80]), LE.Get(b[80..84]), flags))
  }

  function PageBytes(h: Header, slice: Bytes, pageSize: PageSize): (b: Bytes)
    requires |slice| <= pageSize - HEADER
    ensures |b| == pageSize
  {
    EncodeHeader(h) + slice + Zeros(pageSize - HEADER - |slice|)
  }

  /** Each page stores its own slice's length; only the first carries the checksum. */
  function ChunkBytes(h: Header, slices: seq<Bytes>, pageSize: PageSize): Bytes
    requires forall s :: s in slices ==> |s| <= pageSize - HEADER
    decreases |slices|
  {
    if slices == [] then []
    else
      PageBytes(h.(dataLen := |slices[0]|), slices[0], pageSize) + ChunkBytes(h.(crc := 0), slices[1..], pageSize)
  }

  /** The byte offset of page number `n`. */
  function PageAt(pageSize: PageSize, n: nat): (at: nat)
    ensures at >= SEG_HEADER
  {
    SEG_HEADER + n * pageSize
  }

  // ---- what a file holds

  /** The page at `at` is whole, unflagged or flagged as said, and holds `slice`. */
  predicate PageHolds(file: Bytes, pageSize: PageSize, at: nat, slice: Bytes, crc: Uint32, deleted: bool) {
    && at + pageSize <= |file|
    && |slice| <= pageSize - HEADER
    && At(file, at, LE.Put(|slice|, 8))
    && At(file, at + 80, LE.Put(crc, 4))
    && DecodeMagic(file[at + 84..at + 88]).Some?
    && IsDeleted(DecodeMagic(file[at + 84..at + 88]).value) == deleted
    && At(file, at + HEADER, slice)
  }

  /** Consecutive pages from number `n` on hold `slices`; those in `dead` are flagged. */
  predicate PagesHold(file: Bytes, pageSize: PageSize, n: nat, slices: seq<Bytes>, crc: Uint32, dead: set<nat>) {
    forall i :: 0 <= i < |slices| ==>
      PageHolds(file, pageSize, PageAt(pageSize, n + i), slices[i], if i == 0 then crc else 0, n + i in dead)
  }

  // ---- reading

  datatype ReadError = TooShort | BadHeader | Deleted | LengthExceedsCapacity | SlicePanic | BadChecksum

  /** ReadAt into the page buffer: a short read leaves what the buffer held before behind it. */
  function Fill(file: Bytes, at: nat, buf: Bytes): (r: (Bytes, nat))
    ensures |r.0| == |buf| && r.1 <= |buf|
  {
    if at >= |file| then (buf, 0)
    else
      var n := Min(|buf|, |file| - at);
      (file[at..at + n] + buf[n..], n)
  }

  datatype PageRead = PageRead(crc: Uint32, payload: Bytes)

  function ReadPage(file: Bytes, at: nat, buf: Bytes): Result<PageRead, ReadError> {
    var (b, n) := Fill(file, at, buf);
    if n < HEADER then Err(TooShort) else
    match DecodeHeader(b[..HEADER])
    case Err(_) => Err(BadHeader)
    case Ok(h) =>
      if IsDeleted(h.flags) then Err(Deleted) else
      var payloadLen := LE.ToInt64(h.dataLen);
      if payloadLen > |buf| - HEADER then Err(LengthExceedsCapacity)
      else if payloadLen < 0 then Err(SlicePanic)
      else Ok(PageRead(h.crc, b[HEADER..HEADER + payloadLen]))
  }

  /** Reads page number `i` of a chunk. */
  type Reader = nat -> Result<PageRead, ReadError>

  /** `stale(i)` is what the pooled page buffer held before page `i` was read into it. */
  function ReaderOf(file: Bytes, at: nat, pageSize: PageSize, stale: nat -> Bytes): Reader {
    (i: nat) => ReadPage(file, at + i * pageSize, stale(i))
  }

  /** The reading loop from page `i` on. */
  function ReadPages(read: Reader, i: nat, pages: nat): Result<Bytes, ReadError>
    decreases pages - i
  {
    if i >= pages then Ok([]) else
    match read(i)
    case Err(e) => Err(e)
    case Ok(p) => Prefixed(p.payload, ReadPages(read, i + 1, pages))
  }

  function Prefixed(data: Bytes, r: Result<Bytes, ReadError>): Result<Bytes, ReadError> {
    match r
    case Err(e) => Err(e)
    case Ok(rest) => Ok(data + rest)
  }

  /** ReadChunk without a cipher; the checksum is the first page's. */
  function ReadChunk(read: Reader, pageCount: int, crc: Bytes -> Uint32): Result<Bytes, ReadError> {
    match ReadPages(read, 0, if pageCount < 1 then 1 else pageCount)
    case Err(e) => Err(e)
    case Ok(data) => if crc(data) != read(0).value.crc then Err(BadChecksum) else Ok(data)
  }

  // ---- changing headers in place

  /** patchPage on a written page: total chunks, blob id, flags. The first two are written even if the magic is bad. */
  function PatchPage(file: Bytes, at: nat, blobId: Sha, totalChunks: Uint32, flags: Byte): (Bytes, bool)
    requires at + HEADER <= |file|
  {
    PatchFlags(WriteAt(WriteAt(file, at + 76, LE.Put(totalChunks, 4)), at + 40, blobId), at, flags)
  }

  function PatchFlags(file: Bytes, at: nat, flags: Byte): (Bytes, bool)
    requires at + HEADER <= |file|
  {
    match DecodeMagic(file[at + 84..at + 88])
    case None => (file, false)
    case Some(existing) => (WriteAt(file, at + 84, EncodeMagic(SetFlags(existing, flags))), true)
  }

  /** MarkDeleted: fails where the file has no page header, otherwise sets one bit. */
  function MarkDeleted(file: Bytes, at: nat): Option<Bytes> {
    if at + HEADER > |file| then None
    else
      var (marked, ok) := PatchFlags(file, at, FLAG_DELETED);
      if ok then Some(marked) else None
  }

  // ---- scanning

  datatype ScanStep = ScanStep(header: Header, next: nat)

  /** One turn of the scan loop at byte `off`: no whole header or a bad one ends it. */
  function ScanAt(file: Bytes, pageSize: PageSize, off: nat): Option<ScanStep>
    requires pageSize < 0x1_0000_0000
  {
    if off + HEADER > |file| then None
    else
      match DecodeHeader(file[off..off + HEADER])
      case Err(_) => None
      case Ok(h) =>
        Some(ScanStep(h, off + Skip(PagesFor(h, pageSize), pageSize)))
  }

  function Skip(pages: int, pageSize: PageSize): (n: nat)
    requires pages >= 1
    ensures n > 0 && (pages == 1 ==> n == pageSize)
  {
    assert (pages - 1) * pageSize >= 0;
    pages * pageSize
  }

  /** The number of pages the scan takes an entry to have, from the length in its header. */
  function PagesFor(h: Header, pageSize: PageSize): (n: int)
    requires pageSize < 0x1_0000_0000
    ensures n >= 1
  {
    var capacity := pageSize - HEADER;
    var n := LE.Wrap64(LE.ToInt64(h.dataLen) + capacity - 1);
    if n < capacity then 1 else n / capacity
  }

  ghost predicate Forward(step: nat -> Option<ScanStep>, size: nat) {
    forall off: nat :: step(off).Some? ==> off < size && off < step(off).value.next
  }

  /** The scan loop from byte `off` on: header after header. */
  function Scan(step: nat -> Option<ScanStep>, ghost size: nat, off: nat): seq<(nat, Header)>
    requires Forward(step, size)
    decreases size - off
  {
    match step(off)
    case None => []
    case Some(s) => [(off, s.header)] + Scan(step, size, s.next)
  }

  function ScanOf(file: Bytes, pageSize: PageSize): (step: nat -> Option<ScanStep>)
    requires pageSize < 0x1_0000_0000
    ensures Forward(step, |file|)
  {
    (off: nat) => ScanAt(file, pageSize, off)
  }

  /** Every page up to `count` is whole and holds some slice. */
  ghost predicate Paged(file: Bytes, pageSize: PageSize, count: nat) {
    && |file| == PageAt(pageSize, count)
    && forall k :: 0 <= k < count ==> HoldsSomething(file, pageSize, k)
  }

  ghost predicate HoldsSomething(file: Bytes, pageSize: PageSize, k: nat) {
    exists slice: Bytes, crc: Uint32, deleted: bool :: PageHolds(file, pageSize, PageAt(pageSize, k), slice, crc, deleted)
  }
}
