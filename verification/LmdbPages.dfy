/** Bytes, little-endian reads and the page-level accessors of the LMDB reader. */
module LmdbPages {
  import opened Prelude
  import opened Bytes

  const LMDB_MAGIC: nat := 0xBEEF_C0DE
  const MAGIC_OFFSET: nat := 16
  const PAGE_HEADER: nat := 16
  const NODE_HEADER: nat := 8
  const P_BRANCH: nat := 0x01
  const P_LEAF: nat := 0x02
  const P_OVERFLOW: nat := 0x04
  const P_LEAF2: nat := 0x20
  const F_BIGDATA: nat := 0x01
  const F_DUPDATA: nat := 0x04
  const MAX_DEPTH: nat := 64
  const MAX_VALUE_BYTES: nat := 0x40_0000
  const NO_PAGE: nat := 0xFFFF_FFFF_FFFF_FFFF

  datatype Error =
    | ShortRead | NotLmdb | BadPageSize | TooShort | NoMeta | PastEnd | HeaderMismatch | TooDeep | OverBudget
    | BadBounds | FixedSizeLeaf | BadPointer | DupSorted | BadKey | BadValue | BadOverflow | BadPageType

  datatype Result<T> = Ok(value: T) | Err(error: Error) {
    predicate IsFailure() { Err? }
    function PropagateFailure<U>(): Result<U>
      requires Err?
    {
      Err(error)
    }
    function Extract(): T
      requires Ok?
    {
      value
    }
  }

  predicate HasBit(flags: nat, bit: nat)
    requires bit > 0
  {
    flags / bit % 2 == 1
  }

  /** `n` bytes at `at`, or an error: never out of bounds. */
  function ReadAt(b: seq<byte>, at: nat, n: nat): Result<nat> {
    if at + n <= |b| then Ok(LittleEndian(b[at..at + n])) else Err(ShortRead)
  }

  datatype DbRecord = DbRecord(depth: nat, entries: nat, root: nat)

  function ParseRecord(b: seq<byte>, at: nat): Result<DbRecord> {
    var depth :- ReadAt(b, at + 6, 2);
    var entries :- ReadAt(b, at + 32, 8);
    var root :- ReadAt(b, at + 40, 8);
    Ok(DbRecord(depth, entries, root))
  }

  datatype Lmdb = Lmdb(file: seq<byte>, pageSize: nat, main: DbRecord) {
    predicate Valid() { SaneSize(file, pageSize) }

    function Pages(): nat
      requires Valid()
    {
      |file| / pageSize
    }

    /** The bytes of page `pgno`. */
    function Page(pgno: nat): (page: seq<byte>)
      requires Valid() && pgno < Pages()
      ensures |page| == pageSize
    {
      PageFits(pgno);
      file[pgno * pageSize..pgno * pageSize + pageSize]
    }

    lemma PageFits(pgno: nat)
      requires Valid() && pgno < Pages()
      ensures pgno * pageSize + pageSize <= |file|
    {
      assert (pgno + 1) * pageSize <= Pages() * pageSize;
    }

    lemma SpanFits(pgno: nat, n: nat)
      requires Valid() && pgno + n <= Pages()
      ensures pgno * pageSize + n * pageSize <= |file|
    {
      assert (pgno + n) * pageSize <= Pages() * pageSize;
    }

    function ReadPage(pgno: nat): Result<seq<byte>>
      requires Valid()
    {
      if pgno >= Pages() then Err(PastEnd)
      else
        var page := Page(pgno);
        var number :- ReadAt(page, 0, 8);
        if number != pgno then Err(HeaderMismatch) else Ok(page)
    }
  }

  // ----- Choosing a meta page ------------------------------------------------------------------------

  predicate HasMagic(head: seq<byte>) {
    |head| >= MAGIC_OFFSET + 4 && LittleEndian(head[MAGIC_OFFSET..MAGIC_OFFSET + 4]) == LMDB_MAGIC
  }

  datatype Meta = Meta(txnid: nat, main: DbRecord)

  /** The meta record of a slot, if the slot is usable. */
  function SlotMeta(page: seq<byte>, pages: nat): Option<Meta>
    requires |page| >= 4096
  {
    if ReadAt(page, MAGIC_OFFSET, 4) != Ok(LMDB_MAGIC) || LittleEndian(page[136..144]) >= pages then None
    else
      var main := ParseRecord(page, PAGE_HEADER + 72).value;
      if main.root != NO_PAGE && main.root >= pages then None
      else Some(Meta(LittleEndian(page[144..152]), main))
  }

  predicate SaneSize(file: seq<byte>, pageSize: nat) {
    pageSize in {4096, 8192, 16384, 32768, 65536} && |file| / pageSize >= 3
  }

  /** The page size the first meta page declares. */
  function DeclaredSize(file: seq<byte>): nat {
    if |file| >= 44 then LittleEndian(file[40..44]) else 0
  }

  function Slot(file: seq<byte>, pageSize: nat, slot: nat): Option<Meta>
    requires SaneSize(file, pageSize) && slot < 2
  {
    SlotMeta(Lmdb(file, pageSize, DbRecord(0, 0, 0)).Page(slot), |file| / pageSize)
  }

  predicate WellFormed(file: seq<byte>) {
    HasMagic(file) && |file| >= 44 && SaneSize(file, DeclaredSize(file))
  }

  /** `meta` is the record of a usable slot, and no usable slot has a higher transaction id. */
  ghost predicate IsNewest(file: seq<byte>, size: nat, meta: Meta)
    requires SaneSize(file, size)
  {
    && (Slot(file, size, 0) == Some(meta) || Slot(file, size, 1) == Some(meta))
    && forall j: nat :: j < 2 && Slot(file, size, j).Some? ==> Slot(file, size, j).value.txnid <= meta.txnid
  }

  method NewestMeta(file: seq<byte>, size: nat) returns (best: Option<Meta>)
    requires SaneSize(file, size)
    ensures best.Some? <==> Slot(file, size, 0).Some? || Slot(file, size, 1).Some?
    ensures best.Some? ==> IsNewest(file, size, best.value)
  {
    best := None;
    for slot := 0 to 2
      invariant best.Some? ==> (slot > 0 && best == Slot(file, size, 0)) || (slot > 1 && best == Slot(file, size, 1))
      invariant forall j: nat :: j < slot && Slot(file, size, j).Some? ==>
        best.Some? && Slot(file, size, j).value.txnid <= best.value.txnid
    {
      var meta := Slot(file, size, slot);
      if meta.Some? && (best.None? || meta.value.txnid > best.value.txnid) {
        best := meta;
      }
    }
  }

  lemma SliceOfPrefix(file: seq<byte>, n: nat, a: nat, b: nat)
    requires a <= b <= n <= |file|
    ensures file[..n][a..b] == file[a..b]
  {
  }

  /** The first page is enough to recognise the file. */
  lemma FirstPageTells(file: seq<byte>, n: nat)
    requires n == Min(4096, |file|)
    ensures HasMagic(file[..n]) <==> HasMagic(file)
    ensures ReadAt(file[..n], PAGE_HEADER + 24, 4) == if |file| >= 44 then Ok(DeclaredSize(file)) else Err(ShortRead)
  {
    if n >= 20 {
      SliceOfPrefix(file, n, 16, 20);
    }
    if n >= 44 {
      SliceOfPrefix(file, n, 40, 44);
    }
  }

  // ----- The meta pages in bytes of the file --------------------------------------------------------

  /** Room for a meta page at `base`. */
  predicate InFile(file: seq<byte>, base: nat) { base + 152 <= |file| }

  /** A usable meta page: the magic, a last page inside the file, and a root inside the file or none. */
  ghost predicate UsableAt(file: seq<byte>, base: nat, pages: nat)
    requires InFile(file, base)
  {
    var root := LittleEndian(file[base + 128..base + 136]);
    && LittleEndian(file[base + 16..base + 20]) == 0xBEEF_C0DE
    && LittleEndian(file[base + 136..base + 144]) < pages
    && (root < pages || root == 0xFFFF_FFFF_FFFF_FFFF)
  }

  /** The record a meta page at `base` holds of the main tree. */
  ghost predicate HoldsRecord(file: seq<byte>, base: nat, main: DbRecord)
    requires InFile(file, base)
  {
    && main.depth == LittleEndian(file[base + 94..base + 96])
    && main.entries == LittleEndian(file[base + 120..base + 128])
    && main.root == LittleEndian(file[base + 128..base + 136])
  }

  /** What makes a file an LMDB database the reader can open. */
  ghost predicate Openable(file: seq<byte>) {
    && |file| >= 44 && LittleEndian(file[16..20]) == 0xBEEF_C0DE
    && var size := LittleEndian(file[40..44]);
    && size in {4096, 8192, 16384, 32768, 65536} && 3 * size <= |file|
    && (UsableAt(file, 0, |file| / size) || UsableAt(file, size, |file| / size))
  }

  /** The meta page at `base` is usable and holds `main`, and none has a higher transaction id. */
  ghost predicate NewestAt(file: seq<byte>, size: nat, base: nat, main: DbRecord)
    requires size >= 4096 && 3 * size <= |file| && base in {0, size}
  {
    var pages, txnid := |file| / size, LittleEndian(file[base + 144..base + 152]);
    && UsableAt(file, base, pages) && HoldsRecord(file, base, main)
    && (UsableAt(file, 0, pages) ==> LittleEndian(file[144..152]) <= txnid)
    && (UsableAt(file, size, pages) ==> LittleEndian(file[size + 144..size + 152]) <= txnid)
  }

  /** `main` is the record of a usable meta page with the highest transaction id. */
  ghost predicate IsNewestRecord(file: seq<byte>, size: nat, main: DbRecord)
    requires size >= 4096 && 3 * size <= |file|
  {
    NewestAt(file, size, 0, main) || NewestAt(file, size, size, main)
  }

  lemma SliceOfSlice(file: seq<byte>, base: nat, size: nat, a: nat, b: nat)
    requires a <= b <= size && base + size <= |file|
    ensures file[base..base + size][a..b] == file[base + a..base + b]
  {
    var x, y := file[base..base + size][a..b], file[base + a..base + b];
    assert |x| == |y| == b - a;
    assert forall i :: 0 <= i < b - a ==> x[i] == file[base + a + i] == y[i];
    assert x == y;
  }

  /** A meta record read from a page, in bytes of the file. */
  lemma MetaInBytes(file: seq<byte>, base: nat, size: nat, pages: nat)
    requires size >= 4096 && base + size <= |file|
    ensures InFile(file, base)
    ensures var meta := SlotMeta(file[base..base + size], pages);
      && (meta.Some? <==> UsableAt(file, base, pages))
      && (meta.Some? ==> HoldsRecord(file, base, meta.value.main)
                         && meta.value.txnid == LittleEndian(file[base + 144..base + 152]))
  {
    var page := file[base..base + size];
    SliceOfSlice(file, base, size, 16, 20);
    SliceOfSlice(file, base, size, 94, 96);
    SliceOfSlice(file, base, size, 120, 128);
    SliceOfSlice(file, base, size, 128, 136);
    SliceOfSlice(file, base, size, 136, 144);
    SliceOfSlice(file, base, size, 144, 152);
  }

  lemma FirstPages(file: seq<byte>, size: nat)
    requires SaneSize(file, size)
    ensures 3 * size <= |file|
    ensures Slot(file, size, 0) == SlotMeta(file[0..0 + size], |file| / size)
    ensures Slot(file, size, 1) == SlotMeta(file[size..size + size], |file| / size)
  {
    var db := Lmdb(file, size, DbRecord(0, 0, 0));
    db.PageFits(2);
    assert db.Page(0) == file[0..0 + size] && db.Page(1) == file[size..size + size];
  }

  lemma OpenableInSlots(file: seq<byte>)
    ensures Openable(file) <==> (WellFormed(file) &&
      (Slot(file, DeclaredSize(file), 0).Some? || Slot(file, DeclaredSize(file), 1).Some?))
  {
    if WellFormed(file) {
      var size := DeclaredSize(file);
      FirstPages(file, size);
      MetaInBytes(file, 0, size, |file| / size);
      MetaInBytes(file, size, size, |file| / size);
    } else if Openable(file) {
      assert SaneSize(file, DeclaredSize(file));
    }
  }

  lemma NewestInBytes(file: seq<byte>, size: nat, meta: Meta)
    requires SaneSize(file, size) && IsNewest(file, size, meta)
    ensures 3 * size <= |file| && IsNewestRecord(file, size, meta.main)
  {
    hide UsableAt, HoldsRecord, SlotMeta, LittleEndian, Slot;
    FirstPages(file, size);
    MetaInBytes(file, 0, size, |file| / size);
    MetaInBytes(file, size, size, |file| / size);
    var first, second := Slot(file, size, 0), Slot(file, size, 1);
    assert first.Some? ==> first.value.txnid <= meta.txnid;
    assert second.Some? ==> second.value.txnid <= meta.txnid;
    if first == Some(meta) {
      assert NewestAt(file, size, 0, meta.main);
    } else {
      assert NewestAt(file, size, size, meta.main);
    }
  }

  /**
   `open`: succeeds exactly when the magic is there, the declared page size is a power of two
   in range, the file holds three pages and one of the two meta pages is usable; the record it
   takes is that of the usable one with the highest transaction id.
   */
  method Open(file: seq<byte>) returns (r: Result<Lmdb>)
    ensures r.Ok? <==> Openable(file)
    ensures r.Ok? ==>
      && r.value.Valid() && r.value.file == file && r.value.pageSize == LittleEndian(file[40..44])
      && IsNewestRecord(file, r.value.pageSize, r.value.main)
  {
    var first := file[..Min(4096, |file|)];
    FirstPageTells(file, Min(4096, |file|));
    OpenableInSlots(file);
    if !HasMagic(first) {
      return Err(NotLmdb);
    }
    var pageSize :- ReadAt(first, PAGE_HEADER + 24, 4);
    if pageSize !in {4096, 8192, 16384, 32768, 65536} {
      return Err(BadPageSize);
    }
    if |file| / pageSize < 3 {
      return Err(TooShort);
    }
    var best := NewestMeta(file, pageSize);
    if best.None? {
      return Err(NoMeta);
    }
    NewestInBytes(file, pageSize, best.value);
    return Ok(Lmdb(file, pageSize, best.value.main));
  }
}
