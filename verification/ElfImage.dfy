/** The ELF header test and the program header parser. */
module ElfImage {
  const EXE_MAX_SEGMENTS: int := 5
  const HEADER_SIZE: int := 52
  const PROGRAM_HEADER_SIZE: int := 32
  const PT_LOAD: int := 1

  type Byte = x: int | 0 <= x < 256

  datatype Segment = Segment(offset: nat, fileSize: nat, addr: nat, memSize: nat)

  // ----- little-endian fields -----

  function Word16(image: seq<Byte>, k: nat): (w: int)
    requires k + 2 <= |image|
    ensures 0 <= w < 0x1_0000
  {
    image[k] as int + 0x100 * image[k + 1] as int
  }

  function Word32(image: seq<Byte>, k: nat): (w: int)
    requires k + 4 <= |image|
    ensures 0 <= w < 0x1_0000_0000
  {
    Word16(image, k) + 0x1_0000 * Word16(image, k + 2)
  }

  function EntryPoint(image: seq<Byte>): int requires HEADER_SIZE <= |image| { Word32(image, 24) }
  function TableOffset(image: seq<Byte>): int requires HEADER_SIZE <= |image| { Word32(image, 28) }
  function Count(image: seq<Byte>): int requires HEADER_SIZE <= |image| { Word16(image, 44) }

  /** elf_lithiumos_check: magic, class and header size, machine, byte order, type, number of segments. */
  predicate Accepted(image: seq<Byte>)
    requires HEADER_SIZE <= |image|
  {
    && image[..4] == [0x7F, 0x45, 0x4C, 0x46]
    && image[4] == 1 && Word16(image, 40) == HEADER_SIZE
    && Word16(image, 18) == 3
    && image[5] == 1
    && Word16(image, 16) == 2
    && Count(image) <= EXE_MAX_SEGMENTS
  }

  /** The image reaches to the end of its program header table, which is all the parser needs of it. */
  predicate Complete(image: seq<Byte>) {
    && HEADER_SIZE <= |image|
    && (Accepted(image) ==> TableOffset(image) + PROGRAM_HEADER_SIZE * Count(image) <= |image|)
  }

  function HeaderAt(image: seq<Byte>, i: nat): nat
    requires Complete(image) && Accepted(image) && i < Count(image)
    ensures HeaderAt(image, i) + PROGRAM_HEADER_SIZE <= |image|
  {
    TableOffset(image) + PROGRAM_HEADER_SIZE * i
  }

  predicate IsLoad(image: seq<Byte>, i: nat)
    requires Complete(image) && Accepted(image) && i < Count(image)
  {
    Word32(image, HeaderAt(image, i)) == PT_LOAD
  }

  /** What program header i asks for. */
  function SegmentOf(image: seq<Byte>, i: nat): Segment
    requires Complete(image) && Accepted(image) && i < Count(image)
  {
    var h := HeaderAt(image, i);
    Segment(Word32(image, h + 4), Word32(image, h + 16), Word32(image, h + 8), Word32(image, h + 20))
  }

  /** elf32_parse. A slot whose header is not PT_LOAD keeps what it held, and is counted all the same. */
  method Parse(image: seq<Byte>, segs: array<Segment>) returns (err: int, numSegs: nat, entryPoint: int)
    requires Complete(image) && segs.Length == EXE_MAX_SEGMENTS
    modifies segs
    ensures err == (if Accepted(image) then 0 else 1)
    ensures err != 0 ==> segs[..] == old(segs[..])
    ensures err == 0 ==>
              && numSegs == Count(image) <= segs.Length && entryPoint == EntryPoint(image)
              && (forall i: nat :: i < numSegs ==>
                                     segs[i] == if IsLoad(image, i) then SegmentOf(image, i) else old(segs[i]))
              && (forall i :: numSegs <= i < segs.Length ==> segs[i] == old(segs[i]))
  {
    if !Accepted(image) { return 1, 0, 0; }
    numSegs, entryPoint := Count(image), EntryPoint(image);
    for i := 0 to numSegs
      invariant forall k: nat :: k < i ==> segs[k] == if IsLoad(image, k) then SegmentOf(image, k) else old(segs[k])
      invariant forall k :: i <= k < segs.Length ==> segs[k] == old(segs[k])
    {
      if IsLoad(image, i) { segs[i] := SegmentOf(image, i); }
    }
    err := 0;
  }

  // ----- images laid out from header fields -----

  type Half = x: int | 0 <= x < 0x1_0000
  type Full = x: int | 0 <= x < 0x1_0000_0000

  function Bytes16(x: Half): (b: seq<Byte>)
    ensures |b| == 2
  {
    [x % 0x100, x / 0x100]
  }

  function Bytes32(x: Full): (b: seq<Byte>)
    ensures |b| == 4
  {
    Bytes16(x % 0x1_0000) + Bytes16(x / 0x1_0000)
  }

  /** struct elf32_header; `pad` stands for the version, the ABI and the padding behind them. */
  datatype Header = Header(
    magic: Full, elfClass: Byte, data: Byte, pad: seq<Byte>, kind: Half, machine: Half, version: Full, entry: Full,
    phoff: Full, shoff: Full, flags: Full, ehSize: Half, phEntSize: Half, phNum: Half, shEntSize: Half, shNum: Half,
    shStrNdx: Half)

  /** Magic number, class, byte order, and the padding behind them. */
  function Ident(h: Header): seq<Byte> {
    Bytes32(h.magic) + [h.elfClass, h.data] + h.pad
  }

  function Kind(h: Header): seq<Byte> {
    Bytes16(h.kind) + Bytes16(h.machine) + Bytes32(h.version)
  }

  function FourWords(a: Full, b: Full, c: Full, d: Full): (r: seq<Byte>)
    ensures |r| == 16
  {
    Bytes32(a) + Bytes32(b) + Bytes32(c) + Bytes32(d)
  }

  function Sizes(h: Header): seq<Byte> {
    Bytes16(h.ehSize) + Bytes16(h.phEntSize) + Bytes16(h.phNum) +
    (Bytes16(h.shEntSize) + Bytes16(h.shNum) + Bytes16(h.shStrNdx))
  }

  function HeaderBytes(h: Header): (b: seq<Byte>)
    requires |h.pad| == 10
    ensures |b| == HEADER_SIZE
  {
    Ident(h) + Kind(h) + FourWords(h.entry, h.phoff, h.shoff, h.flags) + Sizes(h)
  }

  /** struct elf32_program_header */
  datatype ProgramHeader = ProgramHeader(
    kind: Full, offset: Full, vAddr: Full, pAddr: Full, fileSize: Full, memSize: Full, flags: Full, align: Full)

  function ProgramHeaderBytes(p: ProgramHeader): (b: seq<Byte>)
    ensures |b| == PROGRAM_HEADER_SIZE
  {
    FourWords(p.kind, p.offset, p.vAddr, p.pAddr) + FourWords(p.fileSize, p.memSize, p.flags, p.align)
  }

  lemma Reads16(image: seq<Byte>, k: nat, x: Half)
    requires k + 2 <= |image| && image[k..k + 2] == Bytes16(x)
    ensures Word16(image, k) == x
  {
    assert image[k] == image[k..k + 2][0] && image[k + 1] == image[k..k + 2][1];
  }

  lemma Reads32(image: seq<Byte>, k: nat, x: Full)
    requires k + 4 <= |image| && image[k..k + 4] == Bytes32(x)
    ensures Word32(image, k) == x
  {
    assert image[k..k + 2] == image[k..k + 4][..2] == Bytes16(x % 0x1_0000);
    assert image[k + 2..k + 4] == image[k..k + 4][2..] == Bytes16(x / 0x1_0000);
    Reads16(image, k, x % 0x1_0000);
    Reads16(image, k + 2, x / 0x1_0000);
  }

  /** Part of a part of the image. */
  lemma Inner(image: seq<Byte>, k: nat, part: seq<Byte>, i: nat, n: nat)
    requires k + |part| <= |image| && image[k..k + |part|] == part && i + n <= |part|
    ensures image[k + i..k + i + n] == part[i..i + n]
  {
    var all, inner := image[k..k + |part|], image[k + i..k + i + n];
    forall m | 0 <= m < n ensures inner[m] == part[i..i + n][m] {
      assert inner[m] == image[k + i + m] && all[i + m] == image[k + (i + m)];
    }
  }

  lemma ReadsFour(image: seq<Byte>, k: nat, a: Full, b: Full, c: Full, d: Full)
    requires k + 16 <= |image| && image[k..k + 16] == FourWords(a, b, c, d)
    ensures Word32(image, k) == a && Word32(image, k + 4) == b
    ensures Word32(image, k + 8) == c && Word32(image, k + 12) == d
  {
    var w := FourWords(a, b, c, d);
    FourParts(Bytes32(a), Bytes32(b), Bytes32(c), Bytes32(d));
    Inner(image, k, w, 0, 4);
    Reads32(image, k, a);
    Inner(image, k, w, 4, 4);
    Reads32(image, k + 4, b);
    Inner(image, k, w, 8, 4);
    Reads32(image, k + 8, c);
    Inner(image, k, w, 12, 4);
    Reads32(image, k + 12, d);
  }

  lemma FourParts(a: seq<Byte>, b: seq<Byte>, c: seq<Byte>, d: seq<Byte>)
    requires |a| == 4 && |b| == 4 && |c| == 4 && |d| == 4
    ensures var w := a + b + c + d; w[0..4] == a && w[4..8] == b && w[8..12] == c && w[12..16] == d
  {
  }

  lemma Magic(image: seq<Byte>, magic: Full)
    requires 4 <= |image| && image[0..4] == Bytes32(magic)
    ensures image[..4] == [0x7F, 0x45, 0x4C, 0x46] <==> magic == 0x464C_457F
  {
    Reads32(image, 0, magic);
    assert Bytes32(0x464C_457F) == [0x7F, 0x45, 0x4C, 0x46] && image[..4] == image[0..4];
    if image[..4] == [0x7F, 0x45, 0x4C, 0x46] {
      assert image[0] == 0x7F && image[1] == 0x45 && image[2] == 0x4C && image[3] == 0x46;
    }
  }

  lemma ReadsIdent(image: seq<Byte>, h: Header)
    requires |h.pad| == 10 && HEADER_SIZE <= |image| && image[0..16] == Ident(h)
    ensures image[..4] == [0x7F, 0x45, 0x4C, 0x46] <==> h.magic == 0x464C_457F
    ensures image[4] == h.elfClass && image[5] == h.data
  {
    var b := Ident(h);
    Inner(image, 0, b, 0, 4);
    assert b[0..4] == Bytes32(h.magic);
    Magic(image, h.magic);
    assert image[4] == image[0..16][4] == b[4] && image[5] == image[0..16][5] == b[5];
  }

  lemma ReadsKind(image: seq<Byte>, h: Header)
    requires HEADER_SIZE <= |image| && image[16..24] == Kind(h)
    ensures Word16(image, 16) == h.kind && Word16(image, 18) == h.machine
  {
    var b := Kind(h);
    Inner(image, 16, b, 0, 2);
    assert b[0..2] == Bytes16(h.kind);
    Reads16(image, 16, h.kind);
    Inner(image, 16, b, 2, 2);
    assert b[2..4] == Bytes16(h.machine);
    Reads16(image, 18, h.machine);
  }

  lemma ReadsSizes(image: seq<Byte>, h: Header)
    requires HEADER_SIZE <= |image| && image[40..52] == Sizes(h)
    ensures Word16(image, 40) == h.ehSize && Word16(image, 44) == h.phNum
  {
    var b := Sizes(h);
    Inner(image, 40, b, 0, 2);
    assert b[0..2] == Bytes16(h.ehSize);
    Reads16(image, 40, h.ehSize);
    Inner(image, 40, b, 4, 2);
    assert b[4..6] == Bytes16(h.phNum);
    Reads16(image, 44, h.phNum);
  }

  lemma HeaderParts(a: seq<Byte>, b: seq<Byte>, c: seq<Byte>, d: seq<Byte>)
    requires |a| == 16 && |b| == 8 && |c| == 16 && |d| == 12
    ensures var w := a + b + c + d; w[0..16] == a && w[16..24] == b && w[24..40] == c && w[40..52] == d
  {
  }

  /** An image that begins with the bytes of a header is accepted exactly when the header's fields are those of a
      32-bit little-endian executable for the 80386 with at most five program headers, and the parser takes entry
      point, table offset and count from their fields. */
  lemma HeaderReads(image: seq<Byte>, h: Header)
    requires |h.pad| == 10 && HEADER_SIZE <= |image| && image[0..HEADER_SIZE] == HeaderBytes(h)
    ensures EntryPoint(image) == h.entry && TableOffset(image) == h.phoff && Count(image) == h.phNum
    ensures Accepted(image) <==>
            && h.magic == 0x464C_457F && h.elfClass == 1 && h.ehSize == 52 && h.machine == 3 && h.data == 1
            && h.kind == 2 && h.phNum <= 5
  {
    var b, places := HeaderBytes(h), FourWords(h.entry, h.phoff, h.shoff, h.flags);
    HeaderParts(Ident(h), Kind(h), places, Sizes(h));
    Inner(image, 0, b, 0, 16);
    ReadsIdent(image, h);
    Inner(image, 0, b, 16, 8);
    ReadsKind(image, h);
    Inner(image, 0, b, 24, 16);
    ReadsFour(image, 24, h.entry, h.phoff, h.shoff, h.flags);
    Inner(image, 0, b, 40, 12);
    ReadsSizes(image, h);
  }

  /** With the bytes of a program header in place i of the table, its fields are what the parser fills slot i
      with, and it does exactly when the header's type is 1. */
  lemma SegmentReads(image: seq<Byte>, i: nat, p: ProgramHeader)
    requires Complete(image) && Accepted(image) && i < Count(image)
    requires var h := TableOffset(image) + 32 * i;
             h + 32 <= |image| && image[h..h + 32] == ProgramHeaderBytes(p)
    ensures SegmentOf(image, i) == Segment(p.offset, p.fileSize, p.vAddr, p.memSize)
    ensures IsLoad(image, i) <==> p.kind == 1
  {
    var h, b := TableOffset(image) + 32 * i, ProgramHeaderBytes(p);
    Inner(image, h, b, 0, 16);
    assert b[0..16] == FourWords(p.kind, p.offset, p.vAddr, p.pAddr);
    ReadsFour(image, h, p.kind, p.offset, p.vAddr, p.pAddr);
    Inner(image, h, b, 16, 16);
    assert b[16..32] == FourWords(p.fileSize, p.memSize, p.flags, p.align);
    ReadsFour(image, h + 16, p.fileSize, p.memSize, p.flags, p.align);
  }
}
