/** The virtual memory manager: page directories that share their kernel half, edited through the
    self-map, with every directory, table and committed page in a block of its own. */
module AddressSpaces {
  import opened Paging
  import PM = PhysicalMemory
  import opened Records

  const KERNEL_FIRST: int := 768 // PAGE_DIRECTORY_INDEX(0xC0000000)
  const TEMP: int := 0xFFBF_F000 // PAGEDIR_TEMP
  const TEMP_DIR: int := 1022
  const TEMP_TABLE: int := 1023
  const TEMP_KEY: Key := Key(0, TEMP_DIR, TEMP_TABLE)
  const VIDMEM: int := 0xFFBF_A000 // VIDMEM_VIRTUAL_ADDRESS

  /** A page of an address space: kernel pages are the same in all of them and carry space 0. */
  datatype Key = Key(space: int, i: int, j: int)

  /** What a block is used for; boot reserves the ones that hold the kernel itself. */
  datatype Owner = Directory | UserTable(dir: int, i: int) | KernelTable(i: int) | Page(key: Key) | Reserved

  /** Memory, the active directory, all directories, the allocated blocks with their use, and the pages
      backed by vmmngr_alloc_page that nothing has remapped since. */
  datatype Spaces = Spaces(ram: Ram, active: int, dirs: set<int>, owner: map<int, Owner>, committed: set<Key>)

  /** Entry i of directory d belongs to an address space in force: a user entry of any directory, or a
      kernel entry of the active one. */
  ghost predicate Covered(s: Spaces, d: int, i: int) {
    d in s.dirs && (0 <= i < KERNEL_FIRST || (d == s.active && 0 <= i < SELF))
  }

  ghost function TableUse(d: int, i: int): Owner {
    if i < KERNEL_FIRST then UserTable(d, i) else KernelTable(i)
  }

  ghost function KeyOf(d: int, i: int, j: int): Key {
    Key(if i < KERNEL_FIRST then d else 0, i, j)
  }

  ghost predicate BlockOk(s: Spaces, used: set<int>, limit: int, f: int) {
    0 < f < limit && f in used
  }

  ghost predicate TableOk(s: Spaces, d: int, i: int) {
    WordAt(s.ram, d, i).present ==>
      var t := WordAt(s.ram, d, i).page; t in s.owner && s.owner[t] == TableUse(d, i)
  }

  /** An entry that is not present has bit 31 clear, so that a frame can be put into it. */
  ghost predicate CleanOk(s: Spaces, d: int, i: int, j: int) {
    WordAt(s.ram, d, i).present ==>
      var e := WordAt(s.ram, WordAt(s.ram, d, i).page, j); e.present || e.page < TOP
  }

  /** What the scratch page last held lies below 2 GiB. */
  ghost predicate TempOk(s: Spaces) {
    EntryFor(s.ram, s.active, TEMP_DIR, TEMP_TABLE).page < TOP
  }

  /** The table entry at (i, j) of a directory; a zero one where there is no table. */
  function EntryFor(ram: Ram, dir: int, i: int, j: int): Entry {
    if WordAt(ram, dir, i).present then WordAt(ram, WordAt(ram, dir, i).page, j) else ZERO
  }

  /** c names a page of some address space in force. */
  ghost predicate IsPage(s: Spaces, c: Key) {
    && c.i < SELF && 0 <= c.j < ENTRIES
    && if c.i < KERNEL_FIRST then 0 <= c.i && c.space in s.dirs else c.space == 0
  }

  /** The directory page c is looked up in. */
  ghost function DirOf(s: Spaces, c: Key): int {
    if c.i < KERNEL_FIRST then c.space else s.active
  }

  /** What page c translates to. */
  ghost function PageAt(s: Spaces, c: Key): Target {
    Walk(s.ram, DirOf(s, c), c.i, c.j)
  }

  ghost predicate CommitOk(s: Spaces, c: Key) {
    && IsPage(s, c)
    && var w := PageAt(s, c); w.Mapped? && w.frame in s.owner && s.owner[w.frame] == Page(c)
  }

  ghost predicate Inv(s: Spaces, used: set<int>, limit: int) {
    && 0 < limit <= TOP
    && (forall f :: 0 <= f < limit ==> Installed(s.ram, f))
    && (forall f :: f in s.owner ==> BlockOk(s, used, limit, f))
    && s.active in s.dirs
    && (forall d :: d in s.dirs ==> d in s.owner && s.owner[d] == Directory)
    && (forall d, i :: Covered(s, d, i) ==> TableOk(s, d, i))
    && (forall c :: c in s.committed ==> CommitOk(s, c))
    && (forall d, i, j :: Covered(s, d, i) && 0 <= j < ENTRIES ==> CleanOk(s, d, i, j))
    && SelfMapped(s.ram, s.active)
    && TempOk(s)
  }

  /** The table entry of page c. */
  ghost function LeafAt(s: Spaces, c: Key): Entry {
    EntryFor(s.ram, DirOf(s, c), c.i, c.j)
  }

  /** Page c is mapped and both its entries allow writing. */
  ghost predicate WritableAt(s: Spaces, c: Key) {
    PageAt(s, c).Mapped? && WordAt(s.ram, DirOf(s, c), c.i).writable && LeafAt(s, c).writable
  }

  /** Page c leads to the same frame in both; when it is mapped its entries allow writing as they did. */
  ghost predicate SameAt(s: Spaces, t: Spaces, c: Key) {
    && PageAt(t, c) == PageAt(s, c)
    && (PageAt(s, c).Mapped? ==>
          && WordAt(t.ram, DirOf(t, c), c.i).writable == WordAt(s.ram, DirOf(s, c), c.i).writable
          && LeafAt(t, c).writable == LeafAt(s, c).writable)
  }

  /** Every page of s that is still there in t, but for those in `touched`, translates in t as it does in s, with
      the same write access. */
  ghost predicate Keeps(s: Spaces, t: Spaces, touched: set<Key>) {
    forall c :: IsPage(s, c) && IsPage(t, c) && c !in touched ==> SameAt(s, t, c)
  }

  /** Both entries of page c have the user attribute. */
  ghost predicate UserBits(s: Spaces, c: Key) {
    WordAt(s.ram, DirOf(s, c), c.i).user && LeafAt(s, c).user
  }

  /** No page gets the user attribute in both its entries that did not have it. */
  ghost predicate NoneOpens(s: Spaces, t: Spaces) {
    forall c :: IsPage(s, c) && UserBits(t, c) ==> UserBits(s, c)
  }

  /** A user table in force in t allows writing, unless it was in force in s without. */
  ghost predicate TablesKept(s: Spaces, t: Spaces) {
    forall d, i :: d in s.dirs && d in t.dirs && 0 <= i < KERNEL_FIRST ==> TableKept(s, t, d, i)
  }

  ghost predicate TableKept(s: Spaces, t: Spaces, d: int, i: int) {
    WordAt(t.ram, d, i).present ==>
      WordAt(t.ram, d, i).writable || (WordAt(s.ram, d, i).present && !WordAt(s.ram, d, i).writable)
  }

  /** Page c is mapped and open to user mode (Intel SDM Vol. 3A, section 4.6): both its entries say so. */
  ghost predicate OpenAt(s: Spaces, c: Key) {
    PageAt(s, c).Mapped? && UserBits(s, c)
  }

  /** Every page that was open to user mode still is. */
  ghost predicate OpenKept(s: Spaces, t: Spaces) {
    forall c :: IsPage(s, c) && OpenAt(s, c) ==> OpenAt(t, c)
  }

  /** No directory word changes but, possibly, entry i of the active directory when it was not present. */
  ghost predicate DirWords(s: Spaces, t: Spaces, i: int) {
    forall d, k :: d in s.dirs && !(d == s.active && k == i && !WordAt(s.ram, d, k).present) ==>
                     WordAt(t.ram, d, k) == WordAt(s.ram, d, k)
  }

  lemma PageCovered(s: Spaces, c: Key)
    requires IsPage(s, c) && s.active in s.dirs
    ensures Covered(s, DirOf(s, c), c.i)
  {
  }

  /** Page (i, j) of directory d, if mapped, has been backed by vmmngr_alloc_page and not remapped since, and
      allows writing. */
  ghost predicate PageBacked(s: Spaces, d: int, i: int, j: int) {
    Walk(s.ram, d, i, j).Mapped? ==> Key(d, i, j) in s.committed && EntryFor(s.ram, d, i, j).writable
  }

  /** Every mapped user page of directory d has, and all its user tables allow writing too. */
  ghost predicate Backed(s: Spaces, d: int) {
    && (forall i, j :: 0 <= i < KERNEL_FIRST && 0 <= j < ENTRIES ==> PageBacked(s, d, i, j))
    && (forall i :: 0 <= i < KERNEL_FIRST ==> TableWritable(s, d, i))
  }

  ghost predicate TableWritable(s: Spaces, d: int, i: int) {
    WordAt(s.ram, d, i).present ==> WordAt(s.ram, d, i).writable
  }

  // ----- installing an empty table -----

  const NEW_TABLE_FLAGS: Entry := Entry(0, true, true, false, 0)

  function EmptyTable(): seq<Entry> {
    seq(ENTRIES, _ => ZERO)
  }

  ghost function WithTable(s: Spaces, i: int, t: PageNumber): Spaces {
    s.(ram := Write(s.ram, s.active, i, SetFrame(NEW_TABLE_FLAGS, t))[t := EmptyTable()],
    owner := s.owner[t := TableUse(s.active, i)])
  }

  lemma TableWords(s: Spaces, used: set<int>, limit: int, i: int, t: PageNumber, d: int, k: int)
    requires Inv(s, used, limit) && 0 <= i < SELF && !WordAt(s.ram, s.active, i).present
    requires 0 < t < limit && t !in s.owner
    requires Covered(s, d, k) || (d == s.active && k == SELF)
    ensures WordAt(WithTable(s, i, t).ram, d, k) ==
            if d == s.active && k == i then SetFrame(NEW_TABLE_FLAGS, t) else WordAt(s.ram, d, k)
  {
    assert BlockOk(s, used, limit, s.active) && BlockOk(s, used, limit, d);
  }

  lemma TableWalks(s: Spaces, used: set<int>, limit: int, i: int, t: PageNumber, d: int, k: int, j: int)
    requires Inv(s, used, limit) && 0 <= i < SELF && !WordAt(s.ram, s.active, i).present
    requires 0 < t < limit && t !in s.owner
    requires Covered(s, d, k) && 0 <= j < ENTRIES
    ensures Walk(WithTable(s, i, t).ram, d, k, j) == Walk(s.ram, d, k, j)
    ensures EntryFor(WithTable(s, i, t).ram, d, k, j) == EntryFor(s.ram, d, k, j)
  {
    TableWords(s, used, limit, i, t, d, k);
    assert TableOk(s, d, k);
  }

  lemma InstallTable(s: Spaces, used: set<int>, limit: int, i: int, t: PageNumber)
    requires Inv(s, used, limit) && 0 <= i < SELF && !WordAt(s.ram, s.active, i).present
    requires 0 < t < limit && t !in s.owner && t !in used
    ensures Inv(WithTable(s, i, t), used + {t}, limit)
    ensures Keeps(s, WithTable(s, i, t), {}) && DirWords(s, WithTable(s, i, t), i)
  {
    var r := WithTable(s, i, t);
    forall d | d in s.dirs ensures d != t { assert BlockOk(s, used, limit, d); }
    forall f | 0 <= f < limit ensures Installed(r.ram, f) { assert Installed(s.ram, f); }
    forall f | f in r.owner ensures BlockOk(r, used + {t}, limit, f) { assert f != t ==> BlockOk(s, used, limit, f); }
    forall d, k | Covered(r, d, k) ensures TableOk(r, d, k) {
      assert Covered(s, d, k);
      assert TableOk(s, d, k);
      TableWords(s, used, limit, i, t, d, k);
    }
    TableWords(s, used, limit, i, t, s.active, SELF);
    forall d, k, j | Covered(r, d, k) && 0 <= j < ENTRIES ensures CleanOk(r, d, k, j) {
      assert Covered(s, d, k) && TableOk(s, d, k) && CleanOk(s, d, k, j);
      TableWords(s, used, limit, i, t, d, k);
    }
    assert TempOk(r) by {
      assert Covered(s, s.active, TEMP_DIR) && TableOk(s, s.active, TEMP_DIR);
      TableWords(s, used, limit, i, t, s.active, TEMP_DIR);
    }
    forall c | IsPage(s, c) ensures SameAt(s, r, c) {
      PageCovered(s, c);
      TableWords(s, used, limit, i, t, DirOf(s, c), c.i);
      TableWalks(s, used, limit, i, t, DirOf(s, c), c.i, c.j);
    }
    forall c | c in r.committed ensures CommitOk(r, c) { assert CommitOk(s, c); }
  }

  lemma InstallOpen(s: Spaces, used: set<int>, limit: int, i: int, t: PageNumber)
    requires Inv(s, used, limit) && 0 <= i < SELF && !WordAt(s.ram, s.active, i).present
    requires 0 < t < limit && t !in s.owner
    ensures OpenKept(s, WithTable(s, i, t))
    ensures NoneOpens(s, WithTable(s, i, t)) && TablesKept(s, WithTable(s, i, t))
    ensures var e := WordAt(WithTable(s, i, t).ram, s.active, i); e.writable && !e.user
  {
    var r := WithTable(s, i, t);
    forall c | IsPage(s, c) ensures OpenAt(s, c) ==> OpenAt(r, c)
      ensures UserBits(r, c) ==> UserBits(s, c)
    {
      PageCovered(s, c);
      TableWords(s, used, limit, i, t, DirOf(s, c), c.i);
      assert TableOk(s, DirOf(s, c), c.i);
    }
    forall d, k | d in s.dirs && 0 <= k < KERNEL_FIRST ensures TableKept(s, r, d, k) {
      TableWords(s, used, limit, i, t, d, k);
    }
    TableWords(s, used, limit, i, t, s.active, i) by { assert Covered(s, s.active, i); }
  }

  // ----- writing a table entry -----

  ghost function WithEntry(s: Spaces, i: int, j: int, e: Entry): Spaces {
    s.(ram := Write(s.ram, WordAt(s.ram, s.active, i).page, j, e), committed := s.committed - {KeyOf(s.active, i, j)})
  }

  lemma TableInstalled(s: Spaces, used: set<int>, limit: int, i: int)
    requires Inv(s, used, limit) && Covered(s, s.active, i) && WordAt(s.ram, s.active, i).present
    ensures var t := WordAt(s.ram, s.active, i).page;
            Installed(s.ram, t) && t in s.owner && s.owner[t] == TableUse(s.active, i) && 0 < t < limit
  {
    assert TableOk(s, s.active, i);
    assert BlockOk(s, used, limit, WordAt(s.ram, s.active, i).page);
  }

  lemma WriteEntry(s: Spaces, used: set<int>, limit: int, i: int, j: int, e: Entry)
    requires Inv(s, used, limit) && Covered(s, s.active, i) && WordAt(s.ram, s.active, i).present && 0 <= j < ENTRIES
    requires e.present || e.page < TOP
    requires i == TEMP_DIR && j == TEMP_TABLE ==> e.page < TOP
    ensures Installed(s.ram, WordAt(s.ram, s.active, i).page)
    ensures var r := WithEntry(s, i, j, e);
            && Inv(r, used, limit) && Keeps(s, r, {KeyOf(s.active, i, j)})
            && Walk(r.ram, s.active, i, j) == (if e.present then Mapped(e.page) else Unmapped)
            && DirWords(s, r, i)
  {
    TableInstalled(s, used, limit, i);
    var t, r := WordAt(s.ram, s.active, i).page, WithEntry(s, i, j, e);
    forall f | 0 <= f < limit ensures Installed(r.ram, f) { assert Installed(s.ram, f); }
    forall f | f in r.owner ensures BlockOk(r, used, limit, f) { assert BlockOk(s, used, limit, f); }
    forall d, k | Covered(r, d, k) ensures TableOk(r, d, k) { assert Covered(s, d, k); assert TableOk(s, d, k); }
    forall d, k, l | Covered(r, d, k) && 0 <= l < ENTRIES ensures CleanOk(r, d, k, l) {
      assert Covered(s, d, k) && TableOk(s, d, k) && CleanOk(s, d, k, l);
    }
    assert TableOk(s, s.active, TEMP_DIR) by { assert Covered(s, s.active, TEMP_DIR); }
    forall c | IsPage(s, c) && c != KeyOf(s.active, i, j) ensures SameAt(s, r, c) {
      PageCovered(s, c);
      assert TableOk(s, DirOf(s, c), c.i);
    }
    forall c | c in r.committed ensures CommitOk(r, c) { assert CommitOk(s, c); }
  }

  /** Writing the entry of a page that is not mapped takes no page from user mode. */
  lemma WriteOpen(s: Spaces, used: set<int>, limit: int, i: int, j: int, e: Entry)
    requires Inv(s, used, limit) && Covered(s, s.active, i) && WordAt(s.ram, s.active, i).present && 0 <= j < ENTRIES
    requires Installed(s.ram, WordAt(s.ram, s.active, i).page) && Walk(s.ram, s.active, i, j).Unmapped?
    ensures OpenKept(s, WithEntry(s, i, j, e))
  {
    TableInstalled(s, used, limit, i);
    forall c | IsPage(s, c) && OpenAt(s, c) ensures OpenAt(WithEntry(s, i, j, e), c) {
      PageCovered(s, c);
      assert TableOk(s, DirOf(s, c), c.i);
    }
  }

  /** Writing a table entry with the user attribute it had opens no page, and it touches no directory. */
  lemma WriteBits(s: Spaces, used: set<int>, limit: int, i: int, j: int, e: Entry)
    requires Inv(s, used, limit) && Covered(s, s.active, i) && WordAt(s.ram, s.active, i).present && 0 <= j < ENTRIES
    requires Installed(s.ram, WordAt(s.ram, s.active, i).page) && e.user == EntryFor(s.ram, s.active, i, j).user
    ensures NoneOpens(s, WithEntry(s, i, j, e)) && TablesKept(s, WithEntry(s, i, j, e))
    ensures LeafAt(WithEntry(s, i, j, e), KeyOf(s.active, i, j)) == e
  {
    TableInstalled(s, used, limit, i);
    forall c | IsPage(s, c) ensures UserBits(WithEntry(s, i, j, e), c) ==> UserBits(s, c) {
      PageCovered(s, c);
      assert TableOk(s, DirOf(s, c), c.i);
    }
    forall d, k | d in s.dirs && 0 <= k < KERNEL_FIRST ensures TableKept(s, WithEntry(s, i, j, e), d, k) {}
  }

  /** Where entries lead is the same in both memories. */
  ghost predicate SameTargets(ram: Ram, ram': Ram) {
    && (forall f :: Installed(ram, f) ==> Installed(ram', f))
    && forall f, k :: WordAt(ram', f, k).page == WordAt(ram, f, k).page
                      && WordAt(ram', f, k).present == WordAt(ram, f, k).present
                      && WordAt(ram', f, k).writable == WordAt(ram, f, k).writable
  }

  lemma SameTargetsKeep(s: Spaces, r: Spaces, used: set<int>, limit: int)
    requires Inv(s, used, limit) && r == s.(ram := r.ram) && SameTargets(s.ram, r.ram)
    ensures Inv(r, used, limit) && Keeps(s, r, {})
  {
    forall f | 0 <= f < limit ensures Installed(r.ram, f) { assert Installed(s.ram, f); }
    forall f | f in r.owner ensures BlockOk(r, used, limit, f) { assert BlockOk(s, used, limit, f); }
    forall d, k | Covered(r, d, k) ensures TableOk(r, d, k) { assert Covered(s, d, k); assert TableOk(s, d, k); }
    forall d, k, l | Covered(r, d, k) && 0 <= l < ENTRIES ensures CleanOk(r, d, k, l) {
      assert Covered(s, d, k) && CleanOk(s, d, k, l);
    }
    forall c | c in r.committed ensures CommitOk(r, c) { assert CommitOk(s, c); }
  }

  /** Changing the attributes of an entry changes no translation. */
  lemma Reflag(s: Spaces, used: set<int>, limit: int, f: int, k: int, e: Entry)
    requires Inv(s, used, limit) && Installed(s.ram, f) && 0 <= k < ENTRIES
    requires e == WordAt(s.ram, f, k).(user := e.user, rest := e.rest)
    ensures var r := s.(ram := Write(s.ram, f, k, e)); Inv(r, used, limit) && Keeps(s, r, {})
  {
    SameTargetsKeep(s, s.(ram := Write(s.ram, f, k, e)), used, limit);
  }

  /** Setting the user attribute takes no page from user mode. */
  lemma ReflagOpen(s: Spaces, used: set<int>, limit: int, f: int, k: int, e: Entry)
    requires Inv(s, used, limit) && Installed(s.ram, f) && 0 <= k < ENTRIES && e == WordAt(s.ram, f, k).(user := true)
    ensures OpenKept(s, s.(ram := Write(s.ram, f, k, e)))
  {
    var r := Write(s.ram, f, k, e);
    assert forall g, l :: WordAt(r, g, l) == if g == f && l == k then e else WordAt(s.ram, g, l);
  }

  /** A page whose entry leads to a block nobody owned becomes the owner of that block. */
  lemma CommitPage(s: Spaces, used: set<int>, limit: int, i: int, j: int, p: int)
    requires Inv(s, used, limit) && Covered(s, s.active, i) && 0 <= j < ENTRIES
    requires 0 < p < limit && p !in s.owner && p in used
    requires Walk(s.ram, s.active, i, j) == Mapped(p)
    ensures var c := KeyOf(s.active, i, j);
            Inv(s.(owner := s.owner[p := Page(c)], committed := s.committed + {c}), used, limit)
  {
    var c := KeyOf(s.active, i, j);
    var r := s.(owner := s.owner[p := Page(c)], committed := s.committed + {c});
    forall f | f in r.owner ensures BlockOk(r, used, limit, f) { assert f != p ==> BlockOk(s, used, limit, f); }
    forall d, k | Covered(r, d, k) ensures TableOk(r, d, k) { assert Covered(s, d, k); assert TableOk(s, d, k); }
    forall d, k, l | Covered(r, d, k) && 0 <= l < ENTRIES ensures CleanOk(r, d, k, l) {
      assert Covered(s, d, k) && CleanOk(s, d, k, l);
    }
    forall b | b in r.committed ensures CommitOk(r, b) { assert b != c ==> CommitOk(s, b); }
  }

  // ----- switching and adding directories -----

  /** The directory a switch leaves in block n: its own user half, the outgoing kernel half, itself last. */
  ghost function Merged(user: seq<Entry>, kernel: seq<Entry>, n: PageNumber): seq<Entry> {
    if |user| != ENTRIES || |kernel| != ENTRIES then user
    else user[..KERNEL_FIRST] + kernel[KERNEL_FIRST..SELF] + [SetFrame(kernel[SELF], n)]
  }

  ghost function Switched(s: Spaces, n: PageNumber): Spaces {
    if n !in s.ram || s.active !in s.ram then s
    else s.(ram := s.ram[n := Merged(s.ram[n], s.ram[s.active], n)], active := n)
  }

  /** What a switch does to the address spaces: the incoming directory maps itself and takes over the
      outgoing kernel entries, and no user entry of any directory changes. */
  ghost predicate SwitchEffect(s: Spaces, t: Spaces) {
    && SelfMapped(t.ram, t.active)
    && (forall i :: KERNEL_FIRST <= i < SELF ==> WordAt(t.ram, t.active, i) == WordAt(s.ram, s.active, i))
    && (forall d, i :: d in s.dirs && 0 <= i < KERNEL_FIRST ==> WordAt(t.ram, d, i) == WordAt(s.ram, d, i))
  }

  lemma DirBlock(s: Spaces, used: set<int>, limit: int, d: int)
    requires Inv(s, used, limit) && d in s.dirs
    ensures 0 < d < limit && Installed(s.ram, d) && s.owner[d] == Directory
  {
    assert BlockOk(s, used, limit, d);
  }

  lemma SwitchDirectory(s: Spaces, used: set<int>, limit: int, n: int)
    requires Inv(s, used, limit) && n in s.dirs
    ensures Installed(s.ram, n) && Installed(s.ram, s.active) && 0 < n < limit
    ensures SwitchEffect(s, Switched(s, n)) && Inv(Switched(s, n), used, limit) && Keeps(s, Switched(s, n), {})
  {
    DirBlock(s, used, limit, n);
    DirBlock(s, used, limit, s.active);
    var r := Switched(s, n);
    forall i | KERNEL_FIRST <= i < SELF ensures WordAt(r.ram, n, i) == WordAt(s.ram, s.active, i) {}
    forall d, i | d in s.dirs && 0 <= i < KERNEL_FIRST ensures WordAt(r.ram, d, i) == WordAt(s.ram, d, i) {}
    SwitchWalks(s, used, limit, n);
    assert TempOk(r) by { assert Covered(s, s.active, TEMP_DIR) && TableOk(s, s.active, TEMP_DIR); }
    forall f | 0 <= f < limit ensures Installed(r.ram, f) { assert Installed(s.ram, f); }
    forall f | f in r.owner ensures BlockOk(r, used, limit, f) { assert BlockOk(s, used, limit, f); }
    forall d, k | Covered(r, d, k) ensures TableOk(r, d, k) {
      assert TableOk(s, if k < KERNEL_FIRST then d else s.active, k) by {
        assert Covered(s, if k < KERNEL_FIRST then d else s.active, k);
      }
    }
    forall d, k, l | Covered(r, d, k) && 0 <= l < ENTRIES ensures CleanOk(r, d, k, l) {
      var d0 := if k < KERNEL_FIRST then d else s.active;
      assert Covered(s, d0, k) && TableOk(s, d0, k) && CleanOk(s, d0, k, l);
    }
    forall c | c in r.committed ensures CommitOk(r, c) { assert CommitOk(s, c); }
  }

  lemma SwitchWalks(s: Spaces, used: set<int>, limit: int, n: int)
    requires Inv(s, used, limit) && n in s.dirs
    requires Installed(s.ram, n) && Installed(s.ram, s.active) && 0 < n < limit
    ensures Keeps(s, Switched(s, n), {})
  {
    var r := Switched(s, n);
    forall c | IsPage(s, c) ensures SameAt(s, r, c) {
      PageCovered(s, c);
      assert TableOk(s, DirOf(s, c), c.i);
    }
  }

  ghost function WithDirectory(s: Spaces, n: int): Spaces {
    s.(ram := s.ram[n := EmptyTable()], dirs := s.dirs + {n}, owner := s.owner[n := Directory])
  }

  /** A new, empty directory in a block nobody owns disturbs nothing. */
  lemma AddDirectory(s: Spaces, used: set<int>, limit: int, n: int)
    requires Inv(s, used, limit) && 0 < n < limit && n in used && n !in s.owner
    ensures Inv(WithDirectory(s, n), used, limit) && Keeps(s, WithDirectory(s, n), {})
  {
    var r := WithDirectory(s, n);
    assert TempOk(r) by { assert Covered(s, s.active, TEMP_DIR) && TableOk(s, s.active, TEMP_DIR); }
    forall f | 0 <= f < limit ensures Installed(r.ram, f) { assert Installed(s.ram, f); }
    forall f | f in r.owner ensures BlockOk(r, used, limit, f) { assert f != n ==> BlockOk(s, used, limit, f); }
    forall d, k | Covered(r, d, k) ensures TableOk(r, d, k) {
      if d != n { assert Covered(s, d, k) && TableOk(s, d, k); }
    }
    forall d, k, l | Covered(r, d, k) && 0 <= l < ENTRIES ensures CleanOk(r, d, k, l) {
      if d != n { assert Covered(s, d, k) && TableOk(s, d, k) && CleanOk(s, d, k, l); }
    }
    forall c | IsPage(s, c) ensures SameAt(s, r, c) {
      PageCovered(s, c);
      assert TableOk(s, DirOf(s, c), c.i);
    }
    forall c | c in r.committed ensures CommitOk(r, c) { assert CommitOk(s, c); }
  }

  /** The block belongs to address space n alone: its directory, its tables and its pages. */
  predicate OfSpace(f: int, o: Owner, n: int) {
    match o
    case Directory => f == n
    case UserTable(d, _) => d == n
    case KernelTable(_) => false
    case Page(c) => c.space == n
    case Reserved => false
  }

  /** Without directory n nothing belongs to its address space any more. */
  ghost function WithoutDirectory(s: Spaces, n: int): Spaces {
    var owner := map f | f in s.owner && !OfSpace(f, s.owner[f], n) :: s.owner[f];
    var committed := set c | c in s.committed && c.space != n;
    s.(dirs := s.dirs - {n}, owner := owner, committed := committed)
  }

  /** Giving up an inactive directory leaves every other address space as it is. */
  lemma DropDirectory(s: Spaces, used: set<int>, limit: int, n: int)
    requires Inv(s, used, limit) && n in s.dirs && n != s.active
    ensures Inv(WithoutDirectory(s, n), used, limit) && Keeps(s, WithoutDirectory(s, n), {})
    ensures n !in WithoutDirectory(s, n).owner
  {
    var r := WithoutDirectory(s, n);
    DirBlock(s, used, limit, n);
    forall f | f in r.owner ensures BlockOk(r, used, limit, f) { assert BlockOk(s, used, limit, f); }
    forall d, k | Covered(r, d, k) ensures TableOk(r, d, k) { assert Covered(s, d, k) && TableOk(s, d, k); }
    forall d, k, l | Covered(r, d, k) && 0 <= l < ENTRIES ensures CleanOk(r, d, k, l) {
      assert Covered(s, d, k) && CleanOk(s, d, k, l);
    }
    forall c | c in r.committed ensures CommitOk(r, c) { assert CommitOk(s, c); }
  }

  /** Freeing blocks keeps the invariant exactly when none of them is owned. */
  lemma FreedKeeps(s: Spaces, used: set<int>, limit: int, gone: set<int>)
    requires Inv(s, used, limit)
    ensures Inv(s, used - gone, limit) <==> forall f :: f in gone ==> f !in s.owner
  {
    if forall f :: f in gone ==> f !in s.owner {
      forall f | f in s.owner ensures BlockOk(s, used - gone, limit, f) { assert BlockOk(s, used, limit, f); }
    } else {
      var f :| f in gone && f in s.owner;
      assert !BlockOk(s, used - gone, limit, f);
    }
  }

  // ----- the state boot leaves -----

  ghost function IndexOf(tables: map<int, int>, t: int): int
    requires t in TableBlocks(tables)
  {
    var i :| i in tables && tables[i] == t; i
  }

  ghost function TableBlocks(tables: map<int, int>): set<int> {
    set i | i in tables :: tables[i]
  }

  /** The use of the reserved blocks, of directory d and of its tables, given by directory index. */
  ghost function BootOwner(d: int, tables: map<int, int>, reserved: set<int>): map<int, Owner> {
    map f | f in reserved + TableBlocks(tables) + {d} ::
      if f == d then Directory else if f in TableBlocks(tables) then TableUse(d, IndexOf(tables, f)) else Reserved
  }

  /** Directory d maps itself, and its other present entries install just these tables, each in a block of
      its own that is marked used, with bit 31 clear in every entry that is not present. */
  ghost predicate BootTables(ram: Ram, limit: nat, d: int, tables: map<int, int>, reserved: set<int>, used: set<int>) {
    && 0 < d < limit <= TOP && d in used
    && (forall f :: 0 <= f < limit ==> Installed(ram, f))
    && SelfMapped(ram, d)
    && (forall i :: 0 <= i < SELF ==> (WordAt(ram, d, i).present <==> i in tables))
    && (forall i :: i in tables ==> BootTable(ram, limit, d, tables, used, i))
    && (forall i, k :: i in tables && k in tables && i != k ==> tables[i] != tables[k])
    && (forall f :: f in reserved ==> 0 < f < limit && f in used)
    && EntryFor(ram, d, TEMP_DIR, TEMP_TABLE).page < TOP
  }

  ghost predicate BootTable(ram: Ram, limit: nat, d: int, tables: map<int, int>, used: set<int>, i: int)
    requires i in tables
  {
    var t := tables[i];
    && 0 <= i < SELF && 0 < t < limit && t in used && t != d && WordAt(ram, d, i).page == t
    && forall j :: 0 <= j < ENTRIES ==> WordAt(ram, t, j).present || WordAt(ram, t, j).page < TOP
  }

  /** The invariant holds of what boot leaves. */
  lemma BootSpace(ram: Ram, limit: nat, d: int, tables: map<int, int>, reserved: set<int>, used: set<int>)
    requires BootTables(ram, limit, d, tables, reserved, used)
    ensures Inv(Spaces(ram, d, {d}, BootOwner(d, tables, reserved), {}), used, limit)
  {
    var owner := BootOwner(d, tables, reserved);
    var s := Spaces(ram, d, {d}, owner, {});
    forall i | i in tables ensures tables[i] in owner && owner[tables[i]] == TableUse(d, i) {
      assert BootTable(ram, limit, d, tables, used, i) && tables[i] in TableBlocks(tables);
    }
    forall f | f in owner ensures BlockOk(s, used, limit, f) {
      if f in TableBlocks(tables) { assert BootTable(ram, limit, d, tables, used, IndexOf(tables, f)); }
    }
    forall e, i | Covered(s, e, i) ensures TableOk(s, e, i) {
      assert i in tables ==> BootTable(ram, limit, d, tables, used, i);
    }
    forall e, i, j | Covered(s, e, i) && 0 <= j < ENTRIES ensures CleanOk(s, e, i, j) {
      assert i in tables ==> BootTable(ram, limit, d, tables, used, i);
    }
  }

  // ----- what the invariant means -----

  /** Two committed pages never share a block, and no committed block is a directory or a table in force;
      all of them are marked used. */
  lemma CommittedApart(s: Spaces, used: set<int>, limit: int, a: Key, b: Key, d: int, i: int)
    requires Inv(s, used, limit) && a in s.committed && b in s.committed && Covered(s, d, i)
    ensures PageAt(s, a).Mapped? && PageAt(s, b).Mapped? && PageAt(s, a).frame in used
    ensures a != b ==> PageAt(s, a).frame != PageAt(s, b).frame
    ensures PageAt(s, a).frame != d && d in used
    ensures var e := WordAt(s.ram, d, i); e.present ==> e.page != d && e.page in used && PageAt(s, a).frame != e.page
  {
    assert CommitOk(s, a) && CommitOk(s, b) && TableOk(s, d, i);
    assert BlockOk(s, used, limit, PageAt(s, a).frame) && BlockOk(s, used, limit, d);
    assert WordAt(s.ram, d, i).present ==> BlockOk(s, used, limit, WordAt(s.ram, d, i).page);
  }

  /** Tables in force at different directory entries are different blocks. */
  lemma TablesApart(s: Spaces, used: set<int>, limit: int, d: int, i: int, d': int, i': int)
    requires Inv(s, used, limit) && Covered(s, d, i) && Covered(s, d', i') && (d != d' || i != i')
    requires WordAt(s.ram, d, i).present && WordAt(s.ram, d', i').present
    ensures WordAt(s.ram, d, i).page != WordAt(s.ram, d', i').page
  {
    assert TableOk(s, d, i) && TableOk(s, d', i');
  }

  // ----- the calls, on memory as a value -----

  /** The address spaces with the block bitmap and its counter. */
  datatype Memory = Memory(spaces: Spaces, used: set<int>, counter: PM.Word)

  ghost predicate MemoryInv(m: Memory, limit: int) {
    0 in m.used && Inv(m.spaces, m.used, limit)
  }

  /** The block the next allocation hands out; 0 when there is none. */
  ghost function NextBlock(m: Memory, limit: nat): (b: int)
    ensures b == 0 || (0 < b < limit && b !in m.used)
  {
    PM.AllocResult(m.used, limit, m.counter)
  }

  /** It is the lowest free block of the bitmap's whole words, and there is none exactly when all of those are in
      use or the counter is at the block count. */
  lemma NextBlockExact(m: Memory, limit: nat)
    requires 0 in m.used && limit <= TOP
    ensures NextBlock(m, limit) != 0 <==> m.counter != limit && PM.SomeFree(m.used, limit)
    ensures NextBlock(m, limit) != 0 ==> PM.IsLowest(m.used, NextBlock(m, limit))
  {
    PM.AllocResultExact(m.used, limit, m.counter);
  }

  ghost function Taken(m: Memory, b: int): Memory {
    m.(used := m.used + {b}, counter := (m.counter + 1) % PM.WRAP)
  }

  /** A block taken and given back leaves memory as it was. */
  lemma GivenBack(m: Memory, b: int)
    requires b !in m.used
    ensures Memory(m.spaces, Taken(m, b).used - {b}, (Taken(m, b).counter - 1) % PM.WRAP) == m
  {
    assert m.used + {b} - {b} == m.used;
  }

  ghost predicate HasTable(s: Spaces, i: int) {
    WordAt(s.ram, s.active, i).present
  }

  /** A table for directory entry i, if there is one or a block for it. */
  ghost function TableReady(m: Memory, limit: nat, i: int): Memory
    requires limit <= TOP
  {
    var b := NextBlock(m, limit);
    if HasTable(m.spaces, i) || b == 0 then m else Taken(m, b).(spaces := WithTable(m.spaces, i, b))
  }

  /** vmmngr_map_page */
  ghost function MapDone(m: Memory, limit: nat, i: int, j: int, phys: PageNumber): Memory
    requires limit <= TOP
  {
    var n := TableReady(m, limit, i);
    var pte := EntryFor(n.spaces.ram, n.spaces.active, i, j);
    if !HasTable(n.spaces, i) then n
    else n.(spaces := WithEntry(n.spaces, i, j, SetFrame(pte, phys).(present := true)))
  }

  /** Page (i, j) backed by block p. */
  ghost function WithPage(s: Spaces, i: int, j: int, p: PageNumber): Spaces {
    var c := KeyOf(s.active, i, j);
    var pte := EntryFor(s.ram, s.active, i, j);
    var r := WithEntry(s, i, j, SetFrame(pte, p).(present := true, writable := true));
    r.(owner := r.owner[p := Page(c)], committed := r.committed + {c})
  }

  /** vmmngr_alloc_page */
  ghost function AllocDone(m: Memory, limit: nat, i: int, j: int): Memory
    requires limit <= TOP
  {
    var n := TableReady(m, limit, i);
    var b := NextBlock(n, limit);
    if !HasTable(n.spaces, i) || EntryFor(n.spaces.ram, n.spaces.active, i, j).present || b == 0 then n
    else Taken(n, b).(spaces := WithPage(n.spaces, i, j, b))
  }

  /** The directory switch: the incoming directory is mapped at the scratch page and completed. */
  ghost function SwitchDone(m: Memory, limit: nat, n: PageNumber): Memory
    requires limit <= TOP
  {
    var k := MapDone(m, limit, TEMP_DIR, TEMP_TABLE, n);
    k.(spaces := Switched(k.spaces, n))
  }

  /** The block of the directory add_process makes, or 0. */
  ghost function NewBlock(m: Memory, limit: nat): int
    requires limit <= TOP
  {
    var b := NextBlock(m, limit);
    if b == 0 || !HasTable(TableReady(Taken(m, b), limit, TEMP_DIR).spaces, TEMP_DIR) then 0 else b
  }

  /** The directory half of add_process. */
  ghost function DirectoryDone(m: Memory, limit: nat): Memory
    requires limit <= TOP
  {
    var b := NewBlock(m, limit);
    if b == 0 then m
    else
      var k := MapDone(Taken(m, b), limit, TEMP_DIR, TEMP_TABLE, b);
      k.(spaces := WithDirectory(k.spaces, b))
  }

  /** The memory half of an exit: the blocks of the records are freed, then the directory's. */
  ghost function ExitDone(m: Memory, n: int, freed: seq<int>): Memory {
    Memory(WithoutDirectory(m.spaces, n), m.used - Blocks(freed) - {n}, (m.counter - |freed| - 1) % PM.WRAP)
  }

  /** What every call but an exit keeps: the directories, the blocks in use, each page but those touched, and
      the scratch page's table. */
  ghost predicate Calm(m: Memory, n: Memory, touched: set<Key>) {
    && n.spaces.dirs >= m.spaces.dirs && m.used <= n.used
    && m.spaces.committed - touched <= n.spaces.committed
    && Keeps(m.spaces, n.spaces, touched)
    && (HasTable(m.spaces, TEMP_DIR) ==> HasTable(n.spaces, TEMP_DIR))
  }

  lemma BlockFree(m: Memory, limit: nat)
    requires MemoryInv(m, limit)
    ensures NextBlock(m, limit) != 0 ==> NextBlock(m, limit) !in m.spaces.owner
    ensures NextBlock(m, limit) != 0 ==> MemoryInv(Taken(m, NextBlock(m, limit)), limit)
  {
    var b := NextBlock(m, limit);
    assert b in m.spaces.owner ==> BlockOk(m.spaces, m.used, limit, b);
    MoreUsed(m.spaces, m.used, m.used + {b}, limit);
  }

  /** The entries differ in the frame at most. */
  ghost predicate SameFlags(a: Entry, b: Entry) {
    a.present == b.present && a.writable == b.writable && a.user == b.user && a.rest == b.rest
  }

  /** A table that entry i of the active directory did not have before allows writing, but not to user mode. */
  ghost predicate TableNew(s: Spaces, t: Spaces, i: int) {
    !HasTable(s, i) && HasTable(t, i) ==> WordAt(t.ram, t.active, i).writable && !WordAt(t.ram, t.active, i).user
  }

  lemma TableStep(m: Memory, limit: nat, i: int)
    requires MemoryInv(m, limit) && 0 <= i < SELF
    ensures var n := TableReady(m, limit, i);
            && MemoryInv(n, limit) && Calm(m, n, {}) && OpenKept(m.spaces, n.spaces) && DirWords(m.spaces, n.spaces, i)
            && NoneOpens(m.spaces, n.spaces) && TablesKept(m.spaces, n.spaces) && TableNew(m.spaces, n.spaces, i)
            && n.spaces.active == m.spaces.active && n.spaces.dirs == m.spaces.dirs
            && n.spaces.committed == m.spaces.committed
  {
    var b := NextBlock(m, limit);
    if !HasTable(m.spaces, i) && b != 0 {
      BlockFree(m, limit);
      InstallTable(m.spaces, m.used, limit, i, b);
      InstallOpen(m.spaces, m.used, limit, i, b);
    }
  }

  /** A table that was not there before is empty, and its first use finds entries that are zero. */
  lemma NewTableEmpty(m: Memory, limit: nat, i: int, j: int)
    requires MemoryInv(m, limit) && 0 <= i < SELF && !HasTable(m.spaces, i) && 0 <= j < ENTRIES
    ensures var n := TableReady(m, limit, i).spaces;
            && (HasTable(n, i) <==> NextBlock(m, limit) != 0)
            && (HasTable(n, i) ==> WordAt(n.ram, WordAt(n.ram, n.active, i).page, j) == ZERO)
            && !EntryFor(n.ram, n.active, i, j).present
  {
    var b := NextBlock(m, limit);
    if b != 0 {
      BlockFree(m, limit);
      TableWords(m.spaces, m.used, limit, i, b, m.spaces.active, i) by { assert Covered(m.spaces, m.spaces.active, i); }
    }
  }

  /** vmmngr_map_page: the page gets the frame unless bit 31 is in the way, every other page stays where it
      is, and the call fails exactly when it needs a table and no block is left. */
  lemma MapStep(m: Memory, limit: nat, i: int, j: int, phys: PageNumber)
    requires MemoryInv(m, limit) && 0 <= i < SELF && 0 <= j < ENTRIES
    requires i == TEMP_DIR && j == TEMP_TABLE ==> phys < TOP
    ensures var n, c := MapDone(m, limit, i, j, phys), KeyOf(m.spaces.active, i, j);
            && MemoryInv(n, limit) && Calm(m, n, {c}) && DirWords(m.spaces, n.spaces, i)
            && NoneOpens(m.spaces, n.spaces) && TablesKept(m.spaces, n.spaces) && TableNew(m.spaces, n.spaces, i)
            && n.spaces.active == m.spaces.active && n.spaces.dirs == m.spaces.dirs
    ensures var n, e := MapDone(m, limit, i, j, phys), EntryFor(m.spaces.ram, m.spaces.active, i, j);
            if HasTable(n.spaces, i) then
              && Walk(n.spaces.ram, m.spaces.active, i, j) == Mapped(SetFrame(e, phys).page)
              && SameFlags(e.(present := true), EntryFor(n.spaces.ram, m.spaces.active, i, j))
            else n == m
    ensures HasTable(MapDone(m, limit, i, j, phys).spaces, i) <==> HasTable(m.spaces, i) || NextBlock(m, limit) != 0
  {
    var t := TableReady(m, limit, i);
    TableStep(m, limit, i);
    if !HasTable(m.spaces, i) { NewTableEmpty(m, limit, i, j); }
    if HasTable(t.spaces, i) {
      var pte := EntryFor(t.spaces.ram, t.spaces.active, i, j);
      assert Covered(t.spaces, t.spaces.active, i);
      WriteEntry(t.spaces, t.used, limit, i, j, SetFrame(pte, phys).(present := true));
      WriteBits(t.spaces, t.used, limit, i, j, SetFrame(pte, phys).(present := true));
      TwoBits(m.spaces, t.spaces, MapDone(m, limit, i, j, phys).spaces);
      TwoKeeps(m.spaces, t.spaces, MapDone(m, limit, i, j, phys).spaces, {}, {KeyOf(m.spaces.active, i, j)});
    }
  }

  lemma TwoBits(s: Spaces, t: Spaces, u: Spaces)
    requires NoneOpens(s, t) && NoneOpens(t, u) && TablesKept(s, t) && TablesKept(t, u)
    requires s.dirs == t.dirs && s.active == t.active
    ensures NoneOpens(s, u) && TablesKept(s, u)
  {
    forall c | IsPage(s, c) && UserBits(u, c) ensures UserBits(s, c) { assert IsPage(t, c) && UserBits(t, c); }
    forall d, i | d in s.dirs && d in u.dirs && 0 <= i < KERNEL_FIRST ensures TableKept(s, u, d, i) {
      assert TableKept(s, t, d, i) && TableKept(t, u, d, i);
    }
  }

  lemma TwoKeeps(s: Spaces, t: Spaces, u: Spaces, a: set<Key>, b: set<Key>)
    requires Keeps(s, t, a) && Keeps(t, u, b) && (s.dirs <= t.dirs || u.dirs <= t.dirs)
    ensures Keeps(s, u, a + b)
  {
    forall c | IsPage(s, c) && IsPage(u, c) && c !in a + b ensures SameAt(s, u, c) {
      assert IsPage(t, c) && SameAt(s, t, c) && SameAt(t, u, c);
    }
  }

  /** A page without an entry gets block p. */
  lemma PageStep(s: Spaces, used: set<int>, limit: int, i: int, j: int, p: PageNumber)
    requires Inv(s, used, limit) && 0 <= i < SELF && 0 <= j < ENTRIES && HasTable(s, i)
    requires !EntryFor(s.ram, s.active, i, j).present && 0 < p < limit && p in used && p !in s.owner
    ensures var r := WithPage(s, i, j, p);
            && Inv(r, used, limit) && Keeps(s, r, {KeyOf(s.active, i, j)}) && OpenKept(s, r) && DirWords(s, r, i)
            && NoneOpens(s, r) && TablesKept(s, r)
            && SameFlags(EntryFor(s.ram, s.active, i, j).(present := true, writable := true),
                         EntryFor(r.ram, s.active, i, j))
            && Walk(r.ram, s.active, i, j) == Mapped(p)
            && r.active == s.active && r.dirs == s.dirs && r.committed == s.committed + {KeyOf(s.active, i, j)}
  {
    var pte := EntryFor(s.ram, s.active, i, j);
    var e := SetFrame(pte, p).(present := true, writable := true);
    assert Covered(s, s.active, i);
    assert CleanOk(s, s.active, i, j);
    WriteEntry(s, used, limit, i, j, e);
    WriteOpen(s, used, limit, i, j, e);
    WriteBits(s, used, limit, i, j, e);
    CommitPage(WithEntry(s, i, j, e), used, limit, i, j, p);
  }

  /** vmmngr_alloc_page: a mapped page stays as it is; otherwise the page gets a block that was free, unless
      none is left, and no other page moves. */
  lemma AllocStep(m: Memory, limit: nat, i: int, j: int)
    requires MemoryInv(m, limit) && 0 <= i < SELF && 0 <= j < ENTRIES
    ensures var n, c := AllocDone(m, limit, i, j), KeyOf(m.spaces.active, i, j);
            && MemoryInv(n, limit) && Calm(m, n, {c}) && OpenKept(m.spaces, n.spaces) && DirWords(m.spaces, n.spaces, i)
            && NoneOpens(m.spaces, n.spaces) && TablesKept(m.spaces, n.spaces) && TableNew(m.spaces, n.spaces, i)
            && n.spaces.active == m.spaces.active && n.spaces.dirs == m.spaces.dirs
    ensures var n, w := AllocDone(m, limit, i, j), Walk(m.spaces.ram, m.spaces.active, i, j);
            var e := EntryFor(m.spaces.ram, m.spaces.active, i, j);
            var w' := Walk(n.spaces.ram, m.spaces.active, i, j);
            if w.Mapped? then n == m
            else if w'.Mapped? then
              && w'.frame !in m.used && w'.frame in n.used
              && SameFlags(e.(present := true, writable := true), EntryFor(n.spaces.ram, m.spaces.active, i, j))
              && n.spaces.committed == m.spaces.committed + {KeyOf(m.spaces.active, i, j)}
            else
              NextBlock(n, limit) == 0 && n.spaces.committed == m.spaces.committed && Keeps(m.spaces, n.spaces, {})
  {
    var t, n := TableReady(m, limit, i), AllocDone(m, limit, i, j);
    var b := NextBlock(t, limit);
    TableStep(m, limit, i);
    if !HasTable(m.spaces, i) { NewTableEmpty(m, limit, i, j); }
    if n != t {
      BlockFree(t, limit);
      PageStep(t.spaces, t.used + {b}, limit, i, j, b);
      TwoKeeps(m.spaces, t.spaces, n.spaces, {}, {KeyOf(m.spaces.active, i, j)});
      TwoOpen(m.spaces, t.spaces, n.spaces);
      TwoBits(m.spaces, t.spaces, n.spaces);
    }
  }

  lemma TwoOpen(s: Spaces, t: Spaces, u: Spaces)
    requires OpenKept(s, t) && OpenKept(t, u) && s.dirs <= t.dirs
    ensures OpenKept(s, u)
  {
    forall c | IsPage(s, c) && OpenAt(s, c) ensures OpenAt(u, c) { assert IsPage(t, c) && OpenAt(t, c); }
  }

  /** A switch: the incoming directory maps itself and takes over the outgoing kernel entries, no user entry
      of any directory changes, and no page moves but the scratch page. */
  lemma SwitchStep(m: Memory, limit: nat, n: PageNumber)
    requires MemoryInv(m, limit) && n in m.spaces.dirs && HasTable(m.spaces, TEMP_DIR)
    ensures var r := SwitchDone(m, limit, n);
            && MemoryInv(r, limit) && Calm(m, r, {TEMP_KEY}) && r.used == m.used && r.counter == m.counter
            && r.spaces.active == n && r.spaces.dirs == m.spaces.dirs && r.spaces.owner == m.spaces.owner
            && HasTable(r.spaces, TEMP_DIR) && SwitchEffect(m.spaces, r.spaces)
  {
    var k := MapDone(m, limit, TEMP_DIR, TEMP_TABLE, n);
    DirBlock(m.spaces, m.used, limit, n);
    MapStep(m, limit, TEMP_DIR, TEMP_TABLE, n);
    SwitchDirectory(k.spaces, k.used, limit, n);
    SwitchWalks(k.spaces, k.used, limit, n);
    TwoKeeps(m.spaces, k.spaces, Switched(k.spaces, n), {TEMP_KEY}, {});
  }

  /** A new directory is empty and in a block that was free; nothing else moves but the scratch page. */
  lemma DirectoryStep(m: Memory, limit: nat)
    requires MemoryInv(m, limit)
    ensures var r, b := DirectoryDone(m, limit), NewBlock(m, limit);
            && MemoryInv(r, limit) && Calm(m, r, {TEMP_KEY}) && r.spaces.active == m.spaces.active
            && TablesKept(m.spaces, r.spaces)
            && (b == 0 ==> r == m)
            && (b != 0 ==> r.spaces.dirs == m.spaces.dirs + {b} && b !in m.spaces.dirs && b !in m.used && 0 < b < TOP
                           && b in r.spaces.ram && r.spaces.ram[b] == EmptyTable() && HasTable(r.spaces, TEMP_DIR))
    ensures HasTable(m.spaces, TEMP_DIR) ==> (NewBlock(m, limit) == 0 <==> NextBlock(m, limit) == 0)
  {
    var b := NewBlock(m, limit);
    if b != 0 {
      BlockFree(m, limit);
      var t, k := Taken(m, b), MapDone(Taken(m, b), limit, TEMP_DIR, TEMP_TABLE, b);
      MapStep(t, limit, TEMP_DIR, TEMP_TABLE, b);
      TakenUnowned(t, limit, TEMP_DIR, TEMP_TABLE, b, b);
      assert b in m.spaces.dirs ==> b in m.spaces.owner;
      AddDirectory(k.spaces, k.used, limit, b);
      TwoKeeps(m.spaces, k.spaces, WithDirectory(k.spaces, b), {TEMP_KEY}, {});
      assert HasTable(WithDirectory(k.spaces, b), TEMP_DIR) == HasTable(k.spaces, TEMP_DIR);
    }
  }

  /** Mapping a page gives no owner to a block that is marked used already. */
  lemma TakenUnowned(m: Memory, limit: nat, i: int, j: int, phys: PageNumber, b: int)
    requires MemoryInv(m, limit) && b in m.used && b !in m.spaces.owner
    ensures b !in MapDone(m, limit, i, j, phys).spaces.owner && b in MapDone(m, limit, i, j, phys).used
  {
  }

  /** Block f may be freed when directory n goes: it is not block 0, and nobody else owns it. */
  ghost predicate MayFree(s: Spaces, n: int, f: int) {
    f != 0 && f !in WithoutDirectory(s, n).owner
  }

  /** An exit moves no page of the address spaces that remain, and memory stays sound exactly when every
      block it frees may be freed. */
  lemma ExitStep(m: Memory, limit: nat, n: int, freed: seq<int>)
    requires MemoryInv(m, limit) && n in m.spaces.dirs && n != m.spaces.active
    ensures var r := ExitDone(m, n, freed);
            && (MemoryInv(r, limit) <==> forall k :: 0 <= k < |freed| ==> MayFree(m.spaces, n, freed[k]))
            && Keeps(m.spaces, r.spaces, {})
  {
    var s, gone := WithoutDirectory(m.spaces, n), Blocks(freed) + {n};
    DirBlock(m.spaces, m.used, limit, n);
    DropDirectory(m.spaces, m.used, limit, n);
    FreedKeeps(s, m.used, limit, gone);
    assert m.used - Blocks(freed) - {n} == m.used - gone;
    if k :| 0 <= k < |freed| && !MayFree(m.spaces, n, freed[k]) {
      assert freed[k] in gone;
    } else {
      forall f | f in gone ensures f != 0 && f !in s.owner {
        if f != n {
          var k :| 0 <= k < |freed| && freed[k] == f;
          assert MayFree(m.spaces, n, freed[k]);
        }
      }
    }
  }

  // ----- opening a page to user mode -----

  ghost function DirOpened(s: Spaces, i: int): Spaces {
    s.(ram := Write(s.ram, s.active, i, WordAt(s.ram, s.active, i).(user := true)))
  }

  ghost function TableOpened(s: Spaces, i: int, j: int): Spaces {
    s.(ram := Write(s.ram, WordAt(s.ram, s.active, i).page, j, EntryFor(s.ram, s.active, i, j).(user := true)))
  }

  /** The user attribute set in the directory entry and the table entry of page (i, j). */
  ghost function OpenDone(s: Spaces, i: int, j: int): Spaces {
    TableOpened(DirOpened(s, i), i, j)
  }

  lemma DirOpenStep(s: Spaces, used: set<int>, limit: int, i: int)
    requires Inv(s, used, limit) && 0 <= i < SELF
    ensures var r := DirOpened(s, i);
            && Inv(r, used, limit) && Keeps(s, r, {}) && OpenKept(s, r)
            && (forall k :: HasTable(s, k) ==> HasTable(r, k))
            && TablesKept(s, r) && WordAt(r.ram, s.active, i) == WordAt(s.ram, s.active, i).(user := true)
  {
    DirBlock(s, used, limit, s.active);
    Reflag(s, used, limit, s.active, i, WordAt(s.ram, s.active, i).(user := true));
    ReflagOpen(s, used, limit, s.active, i, WordAt(s.ram, s.active, i).(user := true));
  }

  lemma TableOpenStep(s: Spaces, used: set<int>, limit: int, i: int, j: int)
    requires Inv(s, used, limit) && 0 <= i < SELF && 0 <= j < ENTRIES && HasTable(s, i)
    ensures var r := TableOpened(s, i, j);
            && Inv(r, used, limit) && Keeps(s, r, {}) && OpenKept(s, r)
            && (forall k :: WordAt(r.ram, s.active, k) == WordAt(s.ram, s.active, k)) && TablesKept(s, r)
            && EntryFor(r.ram, s.active, i, j) == EntryFor(s.ram, s.active, i, j).(user := true)
  {
    assert Covered(s, s.active, i);
    TableInstalled(s, used, limit, i);
    Reflag(s, used, limit, WordAt(s.ram, s.active, i).page, j, EntryFor(s.ram, s.active, i, j).(user := true));
    ReflagOpen(s, used, limit, WordAt(s.ram, s.active, i).page, j, EntryFor(s.ram, s.active, i, j).(user := true));
  }

  /** The page is open to user mode afterwards; no page moves or closes. */
  lemma OpenStep(s: Spaces, used: set<int>, limit: int, i: int, j: int)
    requires Inv(s, used, limit) && 0 <= i < SELF && 0 <= j < ENTRIES && Walk(s.ram, s.active, i, j).Mapped?
    ensures var r := OpenDone(s, i, j);
            && Inv(r, used, limit) && Keeps(s, r, {}) && OpenKept(s, r) && OpenAt(r, KeyOf(s.active, i, j))
            && TablesKept(s, r)
            && (forall k :: HasTable(s, k) ==> HasTable(r, k))
  {
    var d := DirOpened(s, i);
    DirOpenStep(s, used, limit, i);
    assert HasTable(d, i);
    TableOpenStep(d, used, limit, i, j);
    TwoKeeps(s, d, OpenDone(s, i, j), {}, {});
    TwoOpen(s, d, OpenDone(s, i, j));
  }

  // ----- the manager -----

  /** Page k of video memory. */
  function VideoKey(k: int): Key {
    Key(0, TEMP_DIR, 1018 + k)
  }

  /** The page is mapped to a frame from 2 GiB on. */
  ghost predicate MappedHigh(s: Spaces, c: Key) {
    PageAt(s, c).Mapped? && TOP <= PageAt(s, c).frame
  }

  /** Page k leads to its frame afterwards, unless it was mapped from 2 GiB on before. */
  ghost predicate VideoMapped(s: Spaces, t: Spaces, k: int) {
    PageAt(t, VideoKey(k)) == Mapped(0xB8 + k) <==> !MappedHigh(s, VideoKey(k))
  }

  lemma VideoPage(k: int)
    requires 0 <= k < 4
    ensures DirIndex(VIDMEM + PAGE_SIZE * k) == TEMP_DIR && TableIndex(VIDMEM + PAGE_SIZE * k) == 1018 + k
  {
  }

  /** The entry of a page has bit 31 set exactly when the page is mapped there. */
  lemma HighEntry(s: Spaces, used: set<int>, limit: int, k: int)
    requires Inv(s, used, limit) && 0 <= k < 4
    ensures TOP <= EntryFor(s.ram, s.active, TEMP_DIR, 1018 + k).page <==> MappedHigh(s, VideoKey(k))
  {
    assert Covered(s, s.active, TEMP_DIR) && CleanOk(s, s.active, TEMP_DIR, 1018 + k);
  }

  class VirtualMemory {
    var ram: Ram
    var currentDirectory: PageNumber
    const frames: PM.FrameAllocator
    ghost var dirs: set<int>
    ghost var owner: map<int, Owner>
    ghost var committed: set<Key>

    ghost function View(): Spaces
      reads this
    {
      Spaces(ram, currentDirectory, dirs, owner, committed)
    }

    ghost function Mem(): Memory
      requires frames.Sized()
      reads this, frames, frames.bitmap
    {
      Memory(View(), frames.Used(), frames.usedBlocks)
    }

    ghost predicate Valid()
      reads this, frames, frames.bitmap
    {
      frames.Sized() && MemoryInv(Mem(), frames.maxBlocks)
    }

    /** The page of the active address space that holds address `virt`. */
    ghost function PageKey(virt: Address): Key
      reads this
    {
      KeyOf(currentDirectory, DirIndex(virt), TableIndex(virt))
    }

    /** The next block allocation will fail. */
    ghost predicate NoBlock()
      requires frames.Sized()
      reads this, frames, frames.bitmap
    {
      NextBlock(Mem(), frames.maxBlocks) == 0
    }

    lemma NoBlockExactly()
      requires Valid()
      ensures NoBlock() <==> frames.usedBlocks == frames.maxBlocks || !PM.SomeFree(frames.Used(), frames.maxBlocks)
    {
      NextBlockExact(Mem(), frames.maxBlocks);
    }

    /** Takes over the state boot leaves: one directory, its tables, and the reserved blocks. */
    constructor (ram: Ram, dir: PageNumber, frames: PM.FrameAllocator, ghost tables: map<int, int>,
                 ghost reserved: set<int>)
      requires frames.Valid() && BootTables(ram, frames.maxBlocks, dir, tables, reserved, frames.Used())
      ensures Valid() && this.frames == frames
      ensures View() == Spaces(ram, dir, {dir}, BootOwner(dir, tables, reserved), {})
    {
      BootSpace(ram, frames.maxBlocks, dir, tables, reserved, frames.Used());
      this.ram, this.currentDirectory, this.frames := ram, dir, frames;
      this.dirs, this.owner, this.committed := {dir}, BootOwner(dir, tables, reserved), {};
    }

    /** A load through the MMU; the address must be mapped. */
    method Load(a: Address) returns (e: Entry)
      requires Translate(ram, currentDirectory, a).Mapped?
      ensures e == WordAt(ram, Translate(ram, currentDirectory, a).frame, WordIndex(a))
    {
      var t := Translate(ram, currentDirectory, a);
      e := WordAt(ram, t.frame, WordIndex(a));
    }

    /** A store through the MMU; the address must be mapped to memory. */
    method Store(a: Address, e: Entry)
      requires Translate(ram, currentDirectory, a).Mapped?
      requires Installed(ram, Translate(ram, currentDirectory, a).frame)
      modifies this`ram
      ensures ram == Write(old(ram), old(Translate(ram, currentDirectory, a)).frame, WordIndex(a), e)
    {
      var t := Translate(ram, currentDirectory, a);
      ram := Write(ram, t.frame, WordIndex(a), e);
    }

    /** vmmngr_ptable_clear on the table just installed at directory entry i, through the self-map. */
    method ClearTable(i: int)
      requires SelfMapped(ram, currentDirectory) && 0 <= i < SELF && WordAt(ram, currentDirectory, i).present
      requires WordAt(ram, currentDirectory, i).page != currentDirectory
      requires Installed(ram, WordAt(ram, currentDirectory, i).page)
      modifies this`ram
      ensures ram == old(ram)[WordAt(old(ram), currentDirectory, i).page := EmptyTable()]
    {
      ghost var t := WordAt(ram, currentDirectory, i).page;
      for k := 0 to ENTRIES
        invariant t in ram && |ram[t]| == ENTRIES && ram == old(ram)[t := ram[t]]
        invariant forall m :: 0 <= m < k ==> ram[t][m] == ZERO
      {
        SelfMapTable(ram, currentDirectory, i, k);
        Store(TableEntryAddress(i, k), ZERO);
      }
      assert ram[t] == EmptyTable();
    }

    /** The first half of vmmngr_map_page and vmmngr_alloc_page: makes sure there is a table for entry i. */
    method EnsureTable(i: int) returns (ok: bool)
      requires Valid() && 0 <= i < SELF
      modifies this, frames`usedBlocks, frames.bitmap
      ensures Valid() && Mem() == TableReady(old(Mem()), frames.maxBlocks, i)
      ensures ok == HasTable(View(), i) && (!ok ==> NoBlock() && Mem() == old(Mem()))
    {
      TableStep(Mem(), frames.maxBlocks, i);
      SelfMapDirectory(ram, currentDirectory, i);
      var pde := Load(DirEntryAddress(i));
      if pde.present { return true; }
      NewTableEmpty(Mem(), frames.maxBlocks, i, 0);
      ok := NewTable(i);
    }

    method NewTable(i: int) returns (ok: bool)
      requires Valid() && 0 <= i < SELF && !HasTable(View(), i)
      modifies this`ram, this`owner, frames`usedBlocks, frames.bitmap
      ensures frames.Sized() && Mem() == TableReady(old(Mem()), frames.maxBlocks, i)
      ensures ok == (old(NextBlock(Mem(), frames.maxBlocks)) != 0)
    {
      BlockFree(Mem(), frames.maxBlocks);
      DirBlock(View(), frames.Used(), frames.maxBlocks, currentDirectory);
      var newpt := frames.AllocBlock();
      if newpt == 0 { return false; }
      AddTable(i, newpt);
      return true;
    }

    /** Points directory entry i at block t and clears it as a table. */
    method AddTable(i: int, t: PageNumber)
      requires 0 <= i < SELF && SelfMapped(ram, currentDirectory) && t < TOP && t != currentDirectory
      requires Installed(ram, currentDirectory) && Installed(ram, t)
      modifies this`ram, this`owner
      ensures View() == WithTable(old(View()), i, t)
    {
      var e := ZERO;
      e := e.(present := true);
      e := e.(writable := true);
      e := SetFrame(e, t);
      SelfMapDirectory(ram, currentDirectory, i);
      Store(DirEntryAddress(i), e);
      ClearTable(i);
      owner := owner[t := TableUse(currentDirectory, i)];
    }

    /** vmmngr_map_page, for a page-aligned physical address given as a page number. */
    method MapPage(phys: PageNumber, virt: Address) returns (ok: bool)
      requires Valid() && DirIndex(virt) != SELF
      requires DirIndex(virt) == TEMP_DIR && TableIndex(virt) == TEMP_TABLE ==> phys < TOP
      modifies this, frames`usedBlocks, frames.bitmap
      ensures Valid() && Mem() == MapDone(old(Mem()), frames.maxBlocks, DirIndex(virt), TableIndex(virt), phys)
      ensures !ok <==> !old(HasTable(View(), DirIndex(virt))) && old(NoBlock())
      ensures !ok ==> Mem() == old(Mem())
      ensures ok ==>
                var e := EntryFor(old(ram), currentDirectory, DirIndex(virt), TableIndex(virt));
                && Translate(ram, currentDirectory, virt) == Mapped(SetFrame(e, phys).page)
                && (Translate(ram, currentDirectory, virt) == Mapped(phys) <==> TOP <= phys || e.page < TOP)
                && SameFlags(e.(present := true), LeafAt(View(), PageKey(virt)))
      ensures Keeps(old(View()), View(), {PageKey(virt)}) && currentDirectory == old(currentDirectory)
      ensures NoneOpens(old(View()), View()) && TableNew(old(View()), View(), DirIndex(virt))
      ensures ok == HasTable(View(), DirIndex(virt))
    {
      var i, j := DirIndex(virt), TableIndex(virt);
      MapStep(Mem(), frames.maxBlocks, i, j, phys);
      ok := MapEntry(i, j, phys);
    }

    /** vmmngr_map_page on table entry (i, j). */
    method MapEntry(i: int, j: int, phys: PageNumber) returns (ok: bool)
      requires Valid() && 0 <= i < SELF && 0 <= j < ENTRIES
      modifies this, frames`usedBlocks, frames.bitmap
      ensures frames.Sized() && Mem() == MapDone(old(Mem()), frames.maxBlocks, i, j, phys)
      ensures ok == HasTable(View(), i)
    {
      TableStep(Mem(), frames.maxBlocks, i);
      ok := EnsureTable(i);
      if !ok { return; }
      SelfMapTable(ram, currentDirectory, i, j);
      var pte := Load(TableEntryAddress(i, j));
      PutEntry(i, j, SetFrame(pte, phys).(present := true));
    }

    /** Stores a table entry through the self-map. */
    method PutEntry(i: int, j: int, e: Entry)
      requires Valid() && 0 <= i < SELF && 0 <= j < ENTRIES && HasTable(View(), i)
      modifies this`ram, this`committed
      ensures View() == WithEntry(old(View()), i, j, e)
    {
      assert Covered(View(), currentDirectory, i);
      TableInstalled(View(), frames.Used(), frames.maxBlocks, i);
      SelfMapTable(ram, currentDirectory, i, j);
      Store(TableEntryAddress(i, j), e);
      committed := committed - {KeyOf(currentDirectory, i, j)};
    }

    /** vmmngr_alloc_page: backs the page with a block of its own unless it is backed already. */
    method AllocPage(virt: Address) returns (ok: bool)
      requires Valid() && DirIndex(virt) != SELF
      modifies this, frames`usedBlocks, frames.bitmap
      ensures Valid() && Mem() == AllocDone(old(Mem()), frames.maxBlocks, DirIndex(virt), TableIndex(virt))
      ensures ok == Translate(ram, currentDirectory, virt).Mapped? && (!ok ==> NoBlock())
      ensures old(Translate(ram, currentDirectory, virt)).Mapped? ==> Mem() == old(Mem())
      ensures old(Translate(ram, currentDirectory, virt)).Unmapped? && ok ==>
                var t := Translate(ram, currentDirectory, virt);
                && t.frame !in old(frames.Used()) && t.frame in frames.Used()
                && SameFlags(EntryFor(old(ram), currentDirectory, DirIndex(virt), TableIndex(virt))
                             .(present := true, writable := true), LeafAt(View(), PageKey(virt)))
                && committed == old(committed) + {PageKey(virt)}
      ensures Keeps(old(View()), View(), {PageKey(virt)}) && currentDirectory == old(currentDirectory)
      ensures dirs == old(dirs) && (!ok ==> committed == old(committed))
      ensures OpenKept(old(View()), View()) && DirWords(old(View()), View(), DirIndex(virt))
      ensures NoneOpens(old(View()), View()) && TablesKept(old(View()), View())
      ensures TableNew(old(View()), View(), DirIndex(virt))
      ensures old(TempReady()) ==> TempReady()
    {
      AllocStep(Mem(), frames.maxBlocks, DirIndex(virt), TableIndex(virt));
      ok := AllocEntry(DirIndex(virt), TableIndex(virt));
    }

    /** vmmngr_alloc_page on table entry (i, j). */
    method AllocEntry(i: int, j: int) returns (ok: bool)
      requires Valid() && 0 <= i < SELF && 0 <= j < ENTRIES
      modifies this, frames`usedBlocks, frames.bitmap
      ensures frames.Sized() && Mem() == AllocDone(old(Mem()), frames.maxBlocks, i, j)
      ensures ok == Walk(ram, currentDirectory, i, j).Mapped?
    {
      TableStep(Mem(), frames.maxBlocks, i);
      ok := EnsureTable(i);
      if !ok { return; }
      SelfMapTable(ram, currentDirectory, i, j);
      var pte := Load(TableEntryAddress(i, j));
      if pte.present { return true; }
      if !NoBlock() { BlockStep(i, j); }
      ok := Commit(i, j, pte);
    }

    lemma BlockStep(i: int, j: int)
      requires Valid() && 0 <= i < SELF && 0 <= j < ENTRIES && HasTable(View(), i)
      requires !EntryFor(ram, currentDirectory, i, j).present && !NoBlock()
      ensures var b := NextBlock(Mem(), frames.maxBlocks);
              Walk(WithPage(View(), i, j, b).ram, currentDirectory, i, j) == Mapped(b)
    {
      var b := NextBlock(Mem(), frames.maxBlocks);
      BlockFree(Mem(), frames.maxBlocks);
      PageStep(View(), frames.Used() + {b}, frames.maxBlocks, i, j, b);
    }

    /** vmmngr_commit_page on table entry (i, j), which holds `pte`. */
    method Commit(i: int, j: int, pte: Entry) returns (ok: bool)
      requires Valid() && 0 <= i < SELF && 0 <= j < ENTRIES && HasTable(View(), i)
      requires pte == EntryFor(ram, currentDirectory, i, j) && !pte.present
      modifies this, frames`usedBlocks, frames.bitmap
      ensures ok == (old(NextBlock(Mem(), frames.maxBlocks)) != 0) && frames.Sized()
      ensures !ok ==> Mem() == old(Mem())
      ensures ok ==>
                var b := old(NextBlock(Mem(), frames.maxBlocks));
                && PM.IsLowest(old(frames.Used()), b)
                && Mem() == Taken(old(Mem()), b).(spaces := WithPage(old(View()), i, j, b))
    {
      BlockFree(Mem(), frames.maxBlocks);
      NextBlockExact(Mem(), frames.maxBlocks);
      var p := frames.AllocBlock();
      if p == 0 { return false; }
      PutBlock(i, j, pte, p);
      return true;
    }

    /** The rest of vmmngr_commit_page, once it has a block. */
    method PutBlock(i: int, j: int, pte: Entry, p: PageNumber)
      requires Valid() && 0 <= i < SELF && 0 <= j < ENTRIES && HasTable(View(), i)
      requires pte == EntryFor(ram, currentDirectory, i, j)
      modifies this`ram, this`owner, this`committed
      ensures View() == WithPage(old(View()), i, j, p)
    {
      var e := SetFrame(pte, p);
      e := e.(present := true);
      e := e.(writable := true);
      PutEntry(i, j, e);
      ghost var c := KeyOf(currentDirectory, i, j);
      owner := owner[p := Page(c)];
      committed := committed + {c};
    }

    /** pd_entry_add_attrib(pde, PDE_USER), through the self-map. */
    method MarkDirUser(i: int)
      requires Valid() && 0 <= i < SELF
      modifies this`ram
      ensures View() == DirOpened(old(View()), i)
    {
      DirBlock(View(), frames.Used(), frames.maxBlocks, currentDirectory);
      SelfMapDirectory(ram, currentDirectory, i);
      var pde := Load(DirEntryAddress(i));
      Store(DirEntryAddress(i), pde.(user := true));
    }

    /** pt_entry_add_attrib(pte, PTE_USER), through the self-map. */
    method MarkTableUser(i: int, j: int)
      requires Valid() && 0 <= i < SELF && 0 <= j < ENTRIES && HasTable(View(), i)
      modifies this`ram
      ensures View() == TableOpened(old(View()), i, j)
    {
      assert Covered(View(), currentDirectory, i);
      TableInstalled(View(), frames.Used(), frames.maxBlocks, i);
      SelfMapTable(ram, currentDirectory, i, j);
      var pte := Load(TableEntryAddress(i, j));
      Store(TableEntryAddress(i, j), pte.(user := true));
    }

    /** Opens a mapped page to user mode, as the process loader does: both its entries get the attribute. */
    method MarkUser(virt: Address)
      requires Valid() && DirIndex(virt) != SELF && Translate(ram, currentDirectory, virt).Mapped?
      modifies this`ram
      ensures Valid() && View() == OpenDone(old(View()), DirIndex(virt), TableIndex(virt))
      ensures Keeps(old(View()), View(), {}) && OpenKept(old(View()), View()) && OpenAt(View(), PageKey(virt))
      ensures TablesKept(old(View()), View())
      ensures old(TempReady()) ==> TempReady()
    {
      ghost var s := View();
      OpenStep(s, frames.Used(), frames.maxBlocks, DirIndex(virt), TableIndex(virt));
      DirOpenStep(s, frames.Used(), frames.maxBlocks, DirIndex(virt));
      MarkDirUser(DirIndex(virt));
      assert HasTable(s, DirIndex(virt));
      MarkTableUser(DirIndex(virt), TableIndex(virt));
    }

    /** vmmngr_get_physical_address, as a page number; 0 stands for a page that is not mapped. */
    method GetPhysicalAddress(virt: Address) returns (phys: int)
      requires Valid()
      ensures phys == match Translate(ram, currentDirectory, virt)
                      case Unmapped => 0
                      case Mapped(f) => f % TOP
    {
      SelfMapDirectory(ram, currentDirectory, DirIndex(virt));
      SelfMapTable(ram, currentDirectory, DirIndex(virt), TableIndex(virt));
      var pde := Load(DirEntryAddress(DirIndex(virt)));
      if !pde.present { return 0; }
      var pte := Load(TableEntryAddress(DirIndex(virt), TableIndex(virt)));
      if !pte.present { return 0; }
      return SoftFrame(pte);
    }

    /** The scratch page has a table. */
    ghost predicate TempReady()
      reads this
    {
      HasTable(View(), TEMP_DIR)
    }

    /** The mapping of video memory during boot. Each of the four pages leads to its frame unless it was mapped
        to one from 2 GiB on. The scratch page shares their table, and so has one from here on unless there was
        neither a table nor a block. */
    method MapVideo()
      requires Valid()
      modifies this, frames`usedBlocks, frames.bitmap
      ensures Valid() && currentDirectory == old(currentDirectory) && dirs == old(dirs)
      ensures TempReady() <==> old(TempReady()) || !old(NoBlock())
      ensures TempReady() ==> forall k :: 0 <= k < 4 ==> VideoMapped(old(View()), View(), k)
    {
      for k := 0 to 4
        invariant Valid() && currentDirectory == old(currentDirectory) && dirs == old(dirs)
        invariant !TempReady() ==> Mem() == old(Mem())
        invariant if k == 0 then Mem() == old(Mem()) else TempReady() <==> old(TempReady()) || !old(NoBlock())
        invariant TempReady() ==> forall l :: 0 <= l < k ==> VideoMapped(old(View()), View(), l)
        invariant forall l :: k <= l < 4 ==> PageAt(View(), VideoKey(l)) == old(PageAt(View(), VideoKey(l)))
      {
        ghost var s := View();
        MapVideoPage(k);
        forall l | TempReady() && 0 <= l <= k ensures VideoMapped(old(View()), View(), l) {
          assert if l < k then VideoMapped(old(View()), s, l) else VideoMapped(s, View(), l);
        }
      }
    }

    method MapVideoPage(k: nat)
      requires Valid() && k < 4
      modifies this, frames`usedBlocks, frames.bitmap
      ensures Valid() && currentDirectory == old(currentDirectory) && dirs == old(dirs)
      ensures TempReady() <==> old(TempReady()) || !old(NoBlock())
      ensures !TempReady() ==> Mem() == old(Mem())
      ensures TempReady() ==> VideoMapped(old(View()), View(), k)
      ensures forall l :: 0 <= l < 4 && l != k ==> PageAt(View(), VideoKey(l)) == old(PageAt(View(), VideoKey(l)))
    {
      VideoPage(k);
      MapStep(Mem(), frames.maxBlocks, TEMP_DIR, 1018 + k, 0xB8 + k);
      HighEntry(View(), frames.Used(), frames.maxBlocks, k);
      ghost var s := View();
      var ok := MapPage(0xB8 + k, VIDMEM + PAGE_SIZE * k);
      forall l | 0 <= l < 4 && l != k ensures PageAt(View(), VideoKey(l)) == PageAt(s, VideoKey(l)) {
        assert IsPage(s, VideoKey(l)) && IsPage(View(), VideoKey(l));
      }
    }

    /** The directory-switching half of scheduler_switch_process: maps the incoming directory at the
        scratch page, copies the kernel half into it, points its last entry at itself and activates it. */
    method SwitchTo(n: PageNumber)
      requires Valid() && n in dirs && TempReady()
      modifies this, frames`usedBlocks, frames.bitmap
      ensures Valid() && Mem() == SwitchDone(old(Mem()), frames.maxBlocks, n)
      ensures currentDirectory == n && dirs == old(dirs) && frames.Used() == old(frames.Used()) && TempReady()
      ensures Keeps(old(View()), View(), {TEMP_KEY}) && SwitchEffect(old(View()), View())
    {
      ghost var m := Mem();
      SwitchStep(m, frames.maxBlocks, n);
      DirBlock(m.spaces, m.used, frames.maxBlocks, n);
      TempWord(0);
      var ok := MapPage(n, TEMP);
      ghost var s1 := View();
      DirBlock(s1, frames.Used(), frames.maxBlocks, n);
      DirBlock(s1, frames.Used(), frames.maxBlocks, currentDirectory);
      CopyKernelHalf(n);
      currentDirectory := n;
      assert View() == Switched(s1, n);
    }

    /** The copy loop and the last entry of a switch, written through the scratch page. */
    method CopyKernelHalf(n: PageNumber)
      requires Valid() && n in dirs && n < TOP && Translate(ram, currentDirectory, TEMP) == Mapped(n)
      requires Installed(ram, n) && Installed(ram, currentDirectory)
      modifies this`ram
      ensures ram == old(ram)[n := Merged(old(ram)[n], old(ram)[currentDirectory], n)]
    {
      ghost var s, user, kernel := View(), ram[n], ram[currentDirectory];
      assert Mix(user, kernel, KERNEL_FIRST) == user;
      assert s.ram == s.ram[n := user];
      for k := KERNEL_FIRST to ENTRIES
        invariant ram == s.ram[n := Mix(user, kernel, k)]
      {
        MidCopy(s, frames.Used(), frames.maxBlocks, n, user, kernel, k);
        TempWord(k);
        SelfMapDirectory(ram, currentDirectory, k);
        var e := Load(DirEntryAddress(k));
        Store(TEMP + 4 * k, e);
        MixStep(user, kernel, k);
      }
      MidCopy(s, frames.Used(), frames.maxBlocks, n, user, kernel, ENTRIES);
      TempWord(SELF);
      var pde := Load(TEMP + 4 * SELF);
      Store(TEMP + 4 * SELF, SetFrame(pde, n));
      assert Merged(user, kernel, n) == Mix(user, kernel, ENTRIES)[SELF := SetFrame(kernel[SELF], n)];
    }

    /** Clears block n, mapped at the scratch page. */
    method ClearScratch(n: PageNumber)
      requires SelfMapped(ram, currentDirectory) && Translate(ram, currentDirectory, TEMP) == Mapped(n)
      requires Installed(ram, n) && n != currentDirectory && n != WordAt(ram, currentDirectory, TEMP_DIR).page
      modifies this`ram
      ensures ram == old(ram)[n := EmptyTable()]
    {
      for k := 0 to ENTRIES
        invariant n in ram && |ram[n]| == ENTRIES && ram == old(ram)[n := ram[n]]
        invariant forall m :: 0 <= m < k ==> ram[n][m] == ZERO
      {
        TempWord(k);
        Store(TEMP + 4 * k, ZERO);
      }
      assert ram[n] == EmptyTable();
    }

    /** The directory half of add_process: a new empty directory in a block of its own, or 0. */
    method NewDirectory() returns (pd: int)
      requires Valid()
      modifies this, frames`usedBlocks, frames.bitmap
      ensures Valid() && Mem() == DirectoryDone(old(Mem()), frames.maxBlocks)
      ensures pd == old(NewBlock(Mem(), frames.maxBlocks))
      ensures pd == 0 ==> Mem() == old(Mem())
      ensures old(TempReady()) ==> (pd == 0 <==> old(NoBlock()))
      ensures pd != 0 ==> pd !in old(dirs) && pd !in old(frames.Used()) && dirs == old(dirs) + {pd} && 0 < pd < TOP
      ensures pd != 0 ==> pd in ram && ram[pd] == EmptyTable() && TempReady()
      ensures Keeps(old(View()), View(), {TEMP_KEY}) && currentDirectory == old(currentDirectory)
    {
      DirectoryStep(Mem(), frames.maxBlocks);
      pd := MakeDirectory();
    }

    method MakeDirectory() returns (pd: int)
      requires Valid()
      modifies this, frames`usedBlocks, frames.bitmap
      ensures frames.Sized() && Mem() == DirectoryDone(old(Mem()), frames.maxBlocks)
      ensures pd == old(NewBlock(Mem(), frames.maxBlocks))
    {
      ghost var m, b := Mem(), NextBlock(Mem(), frames.maxBlocks);
      BlockFree(m, frames.maxBlocks);
      pd := frames.AllocBlock();
      assert pd == b && Mem() == if b == 0 then m else Taken(m, b);
      if pd == 0 { return; }
      var ok := FillDirectory(pd);
      if !ok {
        GivenBack(m, b);
        frames.FreeBlock(pd);
        return 0;
      }
    }

    /** The rest of it, once there is block n: maps it at the scratch page and clears it. */
    method FillDirectory(n: PageNumber) returns (ok: bool)
      requires Valid() && 0 < n < frames.maxBlocks && n in frames.Used() && n !in owner
      modifies this, frames`usedBlocks, frames.bitmap
      ensures frames.Sized() && ok == old(HasTable(TableReady(Mem(), frames.maxBlocks, TEMP_DIR).spaces, TEMP_DIR))
      ensures !ok ==> Mem() == old(Mem())
      ensures ok ==>
                var k := MapDone(old(Mem()), frames.maxBlocks, TEMP_DIR, TEMP_TABLE, n);
                Mem() == k.(spaces := WithDirectory(k.spaces, n))
    {
      TempWord(0);
      MapStep(Mem(), frames.maxBlocks, TEMP_DIR, TEMP_TABLE, n);
      TakenUnowned(Mem(), frames.maxBlocks, TEMP_DIR, TEMP_TABLE, n, n);
      ok := MapPage(n, TEMP);
      if ok { Adopt(n); }
    }

    /** Clears block n at the scratch page; from then on it is a directory. */
    method Adopt(n: PageNumber)
      requires Valid() && 0 < n < frames.maxBlocks && n in frames.Used() && n !in owner && TempReady()
      requires Translate(ram, currentDirectory, TEMP) == Mapped(n)
      modifies this`ram, this`dirs, this`owner
      ensures View() == WithDirectory(old(View()), n)
    {
      ghost var s := View();
      assert Covered(s, currentDirectory, TEMP_DIR);
      TempWord(0);
      TableInstalled(s, frames.Used(), frames.maxBlocks, TEMP_DIR);
      ClearScratch(n);
      dirs := dirs + {n};
      owner := owner[n := Directory];
    }

    /** Directory n is given up. Nothing is stored. */
    ghost method Abandon(n: int)
      modifies this`dirs, this`owner, this`committed
      ensures View() == WithoutDirectory(old(View()), n)
    {
      ghost var r := WithoutDirectory(View(), n);
      dirs, owner, committed := r.dirs, r.owner, r.committed;
    }
  }


  ghost function Mix(user: seq<Entry>, kernel: seq<Entry>, k: int): seq<Entry>
    requires |user| == ENTRIES && |kernel| == ENTRIES && KERNEL_FIRST <= k <= ENTRIES
  {
    user[..KERNEL_FIRST] + kernel[KERNEL_FIRST..k] + user[k..]
  }

  lemma MixStep(user: seq<Entry>, kernel: seq<Entry>, k: int)
    requires |user| == ENTRIES && |kernel| == ENTRIES && KERNEL_FIRST <= k < ENTRIES
    ensures Mix(user, kernel, k + 1) == Mix(user, kernel, k)[k := kernel[k]]
  {
  }

  /** Halfway through the copy the self-map and the scratch page still work. */
  lemma MidCopy(s: Spaces, used: set<int>, limit: int, n: int, user: seq<Entry>, kernel: seq<Entry>, k: int)
    requires Inv(s, used, limit) && n in s.dirs && Walk(s.ram, s.active, TEMP_DIR, TEMP_TABLE) == Mapped(n)
    requires Installed(s.ram, n) && Installed(s.ram, s.active) && user == s.ram[n] && kernel == s.ram[s.active]
    requires KERNEL_FIRST <= k <= ENTRIES
    ensures var r := s.ram[n := Mix(user, kernel, k)];
            && SelfMapped(r, s.active) && Walk(r, s.active, TEMP_DIR, TEMP_TABLE) == Mapped(n) && Installed(r, n)
            && (k < ENTRIES ==> WordAt(r, s.active, k) == kernel[k])
  {
    if n == s.active { assert Mix(user, kernel, k) == user; }
    assert TableOk(s, s.active, TEMP_DIR) by { assert Covered(s, s.active, TEMP_DIR); }
  }

  lemma TempWord(k: int)
    requires 0 <= k < ENTRIES
    ensures DirIndex(TEMP + 4 * k) == TEMP_DIR && TableIndex(TEMP + 4 * k) == TEMP_TABLE && WordIndex(TEMP + 4 * k) == k
  {
  }

  lemma MoreUsed(s: Spaces, used: set<int>, used': set<int>, limit: int)
    requires Inv(s, used, limit) && used <= used'
    ensures Inv(s, used', limit)
  {
    forall f | f in s.owner ensures BlockOk(s, used', limit, f) { assert BlockOk(s, used, limit, f); }
  }
}
