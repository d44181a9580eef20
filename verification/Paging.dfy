/** 32-bit two-level paging (Intel SDM Vol. 3A, section 4.3): entries, physical memory in blocks of
    1024 words, the walk, and the recursive self-map. */
module Paging {
  const PAGE_SIZE: int := 4096
  const ENTRIES: int := 1024
  const TOP: int := 0x8_0000 // the page number whose address is 2 GiB: bit 31 of an entry

  type PageNumber = p: int | 0 <= p < 0x10_0000
  type Address = a: int | 0 <= a < 0x1_0000_0000

  /** A 32-bit directory or table entry: bits 31..12, bits 0, 1, 2 and the nine other low bits. */
  datatype Entry = Entry(page: PageNumber, present: bool, writable: bool, user: bool, rest: nat)

  const ZERO: Entry := Entry(0, false, false, false, 0)

  /** (e & ~0x7FFFF000) | address: the mask leaves bit 31 of the old entry in place. */
  function SetFrame(e: Entry, page: PageNumber): Entry {
    e.(page := if page < TOP && TOP <= e.page then page + TOP else page)
  }

  /** e & 0x7FFFF000, as a page number. */
  function SoftFrame(e: Entry): int {
    e.page % TOP
  }

  /** An entry takes on a new frame exactly unless its old bit 31 is set and the new frame's is not. */
  lemma SetFrameExact(e: Entry, page: PageNumber)
    ensures SetFrame(e, page).page == page <==> TOP <= page || e.page < TOP
    ensures SoftFrame(SetFrame(e, page)) == page <==> page < TOP
  {
  }

  /** An entry that holds frame 0x80000, at 2 GiB, takes on frame 0x80001 when it is given frame 1. */
  lemma SetFrameExample(e: Entry)
    requires e.page == 0x8_0000
    ensures SetFrame(e, 1).page == 0x8_0001 && SoftFrame(SetFrame(e, 0x8_0001)) == 1
  {
    SetFrameExact(e, 1);
  }

  // ----- physical memory and the walk -----

  type Ram = map<int, seq<Entry>>

  /** The block is memory: 1024 words. */
  predicate Installed(ram: Ram, f: int) {
    f in ram && |ram[f]| == ENTRIES
  }

  function WordAt(ram: Ram, f: int, i: int): Entry {
    if f in ram && 0 <= i < |ram[f]| then ram[f][i] else ZERO
  }

  /** A store to a word that does not exist goes nowhere. */
  function Write(ram: Ram, f: int, i: int, e: Entry): Ram {
    if f in ram && 0 <= i < |ram[f]| then ram[f := ram[f][i := e]] else ram
  }

  datatype Target = Unmapped | Mapped(frame: int)

  /** The frame that entry j of the table at directory entry i leads to. */
  function Walk(ram: Ram, dir: int, i: int, j: int): Target {
    var pde := WordAt(ram, dir, i);
    if !pde.present then Unmapped
    else
      var pte := WordAt(ram, pde.page, j);
      if pte.present then Mapped(pte.page) else Unmapped
  }

  function DirIndex(a: Address): (i: int)
    ensures 0 <= i < ENTRIES
  {
    a / 0x40_0000
  }

  function TableIndex(a: Address): (j: int)
    ensures 0 <= j < ENTRIES
  {
    a / PAGE_SIZE % ENTRIES
  }

  function WordIndex(a: Address): (k: int)
    ensures 0 <= k < ENTRIES
  {
    a % PAGE_SIZE / 4
  }

  function Translate(ram: Ram, dir: int, a: Address): Target {
    Walk(ram, dir, DirIndex(a), TableIndex(a))
  }

  // ----- the self-map -----

  const PAGE_TABLES_ADDR: int := 0xFFC0_0000
  const PAGE_DIRECTORY_ADDRESS: int := 0xFFFF_F000
  const SELF: int := 1023

  /** Entry 1023 of the directory maps the directory itself. */
  predicate SelfMapped(ram: Ram, dir: int) {
    WordAt(ram, dir, SELF).present && WordAt(ram, dir, SELF).page == dir
  }

  /** Where vmmngr_get_ptable_address says entry j of table i is. */
  function TableEntryAddress(i: int, j: int): Address
    requires 0 <= i < ENTRIES && 0 <= j < ENTRIES
  {
    PAGE_TABLES_ADDR + i * PAGE_SIZE + 4 * j
  }

  function DirEntryAddress(i: int): Address
    requires 0 <= i < ENTRIES
  {
    PAGE_DIRECTORY_ADDRESS + 4 * i
  }

  lemma TableEntryIndices(i: int, j: int)
    requires 0 <= i < ENTRIES && 0 <= j < ENTRIES
    ensures var a := TableEntryAddress(i, j); DirIndex(a) == SELF && TableIndex(a) == i && WordIndex(a) == j
  {
  }

  /** Through the self-map, the address of table entry (i, j) reaches word j of the table that directory
      entry i installs, and nothing when none is installed. */
  lemma SelfMapTable(ram: Ram, dir: int, i: int, j: int)
    requires SelfMapped(ram, dir) && 0 <= i < ENTRIES && 0 <= j < ENTRIES
    ensures var a := TableEntryAddress(i, j);
            && WordIndex(a) == j
            && Translate(ram, dir, a) ==
               if WordAt(ram, dir, i).present then Mapped(WordAt(ram, dir, i).page) else Unmapped
  {
    TableEntryIndices(i, j);
  }

  /** Through the self-map, the address of directory entry i reaches word i of the directory. */
  lemma SelfMapDirectory(ram: Ram, dir: int, i: int)
    requires SelfMapped(ram, dir) && 0 <= i < ENTRIES
    ensures var a := DirEntryAddress(i); WordIndex(a) == i && Translate(ram, dir, a) == Mapped(dir)
  {
    TableEntryIndices(SELF, i);
  }

  /** Below the last directory entry lie the tables; an entry of the "table" there is a directory entry,
      so mapping a page there would rewrite the directory. */
  lemma SelfSlot(k: int)
    requires 0 <= k < ENTRIES
    ensures TableEntryAddress(SELF, k) == DirEntryAddress(k)
  {
  }
}
