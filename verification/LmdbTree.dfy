/**
 What the walk is for: a file whose pages represent a B+tree is read back entry by entry, in
 tree order.
 */
module LmdbTree {
  import opened Prelude
  import opened Bytes
  import opened LmdbPages
  import opened LmdbWalk

  /** A value is stored beside its key, or on `span` consecutive pages of its own. */
  datatype Value = Inline(data: seq<byte>) | Overflow(first: nat, span: nat, data: seq<byte>)

  datatype Item = Item(key: seq<byte>, flags: nat, value: Value)

  datatype Tree = Leaf(pgno: nat, items: seq<Item>) | Branch(pgno: nat, kids: seq<Tree>)

  // ----- What a tree says -------------------------------------------------------------------------------

  /** Values above the size limit are reported as absent. */
  function EntryOf(item: Item): Entry {
    var absent := item.value.Overflow? && |item.value.data| > MAX_VALUE_BYTES;
    Entry(item.key, if absent then None else Some(item.value.data), item.flags)
  }

  function ItemEntries(items: seq<Item>, i: nat): seq<Entry>
    requires i <= |items|
    decreases |items| - i
  {
    if i == |items| then [] else [EntryOf(items[i])] + ItemEntries(items, i + 1)
  }

  /** The leaf entries from left to right. */
  function Entries(t: Tree): seq<Entry>
    decreases t, 0
  {
    match t
    case Leaf(_, items) => ItemEntries(items, 0)
    case Branch(_, kids) => KidEntries(kids, 0)
  }

  function KidEntries(kids: seq<Tree>, i: nat): seq<Entry>
    requires i <= |kids|
    decreases kids, |kids| - i
  {
    if i == |kids| then [] else Entries(kids[i]) + KidEntries(kids, i + 1)
  }

  function Height(t: Tree): nat
    decreases t, 0
  {
    match t
    case Leaf(_, _) => 1
    case Branch(_, kids) => 1 + KidHeight(kids, 0)
  }

  function KidHeight(kids: seq<Tree>, i: nat): nat
    requires i <= |kids|
    decreases kids, |kids| - i
  {
    if i == |kids| then 0 else Max(Height(kids[i]), KidHeight(kids, i + 1))
  }

  function Range(first: nat, n: nat): (r: seq<nat>)
    ensures |r| == n && forall i :: 0 <= i < n ==> r[i] == first + i
    decreases n
  {
    if n == 0 then [] else [first] + Range(first + 1, n - 1)
  }

  function ItemSpan(item: Item): seq<nat> {
    if item.value.Overflow? then Range(item.value.first, item.value.span) else []
  }

  function ItemPages(items: seq<Item>, i: nat): seq<nat>
    requires i <= |items|
    decreases |items| - i
  {
    if i == |items| then [] else ItemSpan(items[i]) + ItemPages(items, i + 1)
  }

  /** Every page the tree occupies, overflow pages included. */
  function PageList(t: Tree): seq<nat>
    decreases t, 0
  {
    match t
    case Leaf(pgno, items) => [pgno] + ItemPages(items, 0)
    case Branch(pgno, kids) => [pgno] + KidPages(kids, 0)
  }

  function KidPages(kids: seq<Tree>, i: nat): seq<nat>
    requires i <= |kids|
    decreases kids, |kids| - i
  {
    if i == |kids| then [] else PageList(kids[i]) + KidPages(kids, i + 1)
  }

  // ----- How bytes represent it -------------------------------------------------------------------------

  /** Page `pgno` is sound and has `n` nodes. */
  ghost predicate HoldsPage(db: Lmdb, pgno: nat, n: nat, branch: bool)
    requires db.Valid()
  {
    && pgno < db.Pages()
    && var page := db.Page(pgno);
    var flags, lower := LittleEndian(page[10..12]), LittleEndian(page[12..14]);
    && LittleEndian(page[0..8]) == pgno && PAGE_HEADER <= lower <= |page| && (lower - PAGE_HEADER) / 2 == n
    && !HasBit(flags, P_LEAF2) && HasBit(flags, P_BRANCH) == branch && (branch || n == 0 || HasBit(flags, P_LEAF))
  }

  /** Where node `i` of a page starts. */
  ghost predicate HoldsNode(page: seq<byte>, i: nat, ptr: nat) {
    && PAGE_HEADER + 2 * i + 2 <= |page| && LittleEndian(page[PAGE_HEADER + 2 * i..PAGE_HEADER + 2 * i + 2]) == ptr
    && PAGE_HEADER <= ptr && ptr + NODE_HEADER <= |page|
  }

  /** A branch node is a 48-bit page number. */
  ghost predicate HoldsChild(page: seq<byte>, i: nat, child: nat) {
    exists ptr: nat :: HoldsNode(page, i, ptr) && LittleEndian(page[ptr..ptr + 6]) == child
  }

  /** An overflow value: a header page that says how many pages it starts, then the bytes. */
  ghost predicate HoldsOverflow(db: Lmdb, first: nat, span: nat, data: seq<byte>)
    requires db.Valid()
  {
    && span > 0 && first + span <= db.Pages() && |data| <= span * db.pageSize - PAGE_HEADER
    && OverflowBytes(db, first, span, |data|) == data
    && var head := db.Page(first);
    LittleEndian(head[0..8]) == first && HasBit(LittleEndian(head[10..12]), P_OVERFLOW) && LittleEndian(head[12..16]) == span
  }

  /** Size, flags and key length, the key, then the value or the page it is on. */
  ghost predicate HoldsItemAt(db: Lmdb, page: seq<byte>, ptr: nat, item: Item)
    requires db.Valid() && ptr + NODE_HEADER <= |page|
  {
    var keyAt, dataAt := ptr + NODE_HEADER, ptr + NODE_HEADER + |item.key|;
    && LittleEndian(page[ptr..ptr + 4]) == |item.value.data| && LittleEndian(page[ptr + 4..ptr + 6]) == item.flags
    && LittleEndian(page[ptr + 6..ptr + 8]) == |item.key| && dataAt <= |page| && page[keyAt..dataAt] == item.key
    && !HasBit(item.flags, F_DUPDATA) && HasBit(item.flags, F_BIGDATA) == item.value.Overflow?
    && match item.value
       case Inline(data) => dataAt + |data| <= |page| && page[dataAt..dataAt + |data|] == data
       case Overflow(first, span, data) =>
         dataAt + 8 <= |page| && LittleEndian(page[dataAt..dataAt + 8]) == first && HoldsOverflow(db, first, span, data)
  }

  ghost predicate HoldsItem(db: Lmdb, page: seq<byte>, i: nat, item: Item)
    requires db.Valid()
  {
    exists ptr: nat :: HoldsNode(page, i, ptr) && HoldsItemAt(db, page, ptr, item)
  }

  ghost predicate Represents(db: Lmdb, t: Tree)
    requires db.Valid()
  {
    match t
    case Leaf(pgno, items) =>
      && HoldsPage(db, pgno, |items|, false)
      && forall i :: 0 <= i < |items| ==> HoldsItem(db, db.Page(pgno), i, items[i])
    case Branch(pgno, kids) =>
      && HoldsPage(db, pgno, |kids|, true)
      && forall i :: 0 <= i < |kids| ==> HoldsChild(db.Page(pgno), i, kids[i].pgno) && Represents(db, kids[i])
  }

  lemma BitByValue(flags: nat, bit: nat, q: nat, r: nat)
    requires bit > 0 && flags == 2 * bit * q + r && r < 2 * bit
    ensures HasBit(flags, bit) <==> r >= bit
  {
    var high := if r >= bit then 1 else 0;
    assert flags == bit * (2 * q + high) + (r - high * bit);
    QuotientIs(flags, bit, 2 * q + high, r - high * bit);
  }

  lemma MultiplesGrow(d: nat, a: nat, b: nat)
    ensures a < b ==> d * (a + 1) <= d * b
  {
    if a < b {
      assert d * b == d * (a + 1) + d * (b - a - 1);
    }
  }

  lemma QuotientIs(x: nat, d: nat, q: nat, r: nat)
    requires d > 0 && x == d * q + r && r < d
    ensures x / d == q
  {
    MultiplesGrow(d, x / d, q);
    MultiplesGrow(d, q, x / d);
  }

  /** The page and node flags by the value of their bits. */
  lemma FlagsByValue(flags: nat)
    ensures HasBit(flags, P_BRANCH) <==> flags % 2 == 1
    ensures HasBit(flags, P_LEAF) <==> flags % 4 >= 2
    ensures HasBit(flags, P_OVERFLOW) <==> flags % 8 >= 4
    ensures HasBit(flags, P_LEAF2) <==> flags % 64 >= 32
    ensures HasBit(flags, F_BIGDATA) <==> flags % 2 == 1
    ensures HasBit(flags, F_DUPDATA) <==> flags % 8 >= 4
  {
    hide HasBit;
    BitByValue(flags, 1, flags / 2, flags % 2);
    BitByValue(flags, 2, flags / 4, flags % 4);
    BitByValue(flags, 4, flags / 8, flags % 8);
    BitByValue(flags, 32, flags / 64, flags % 64);
  }

  /** Where pages and overflow values lie in the file. */
  lemma PageIsInFile(db: Lmdb, pgno: nat, i: nat)
    requires db.Valid() && pgno < db.Pages() && i < db.pageSize
    ensures pgno * db.pageSize + i < |db.file| && db.Page(pgno)[i] == db.file[pgno * db.pageSize + i]
  {
    db.PageFits(pgno);
  }

  lemma OverflowIsInFile(db: Lmdb, first: nat, n: nat, dsize: nat, i: nat)
    requires db.Valid() && n > 0 && first + n <= db.Pages() && dsize <= n * db.pageSize - 16 && i < dsize
    ensures first * db.pageSize + 16 + i < |db.file|
    ensures OverflowBytes(db, first, n, dsize)[i] == db.file[first * db.pageSize + 16 + i]
  {
    db.SpanFits(first, n);
  }

  // ----- Decoding nodes ---------------------------------------------------------------------------------

  lemma SplitAt(page: seq<byte>, a: nat, b: nat, c: nat)
    requires a <= b <= c <= |page|
    ensures LittleEndian(page[a..c]) == LittleEndian(page[a..b]) + Power256(b - a) * LittleEndian(page[b..c])
  {
    assert page[a..c] == page[a..b] + page[b..c];
    LittleEndianConcat(page[a..b], page[b..c]);
  }

  lemma SmallPowers()
    ensures Power256(2) == 0x1_0000 && Power256(4) == 0x1_0000_0000
  {
    assert Power256(1) == 256;
    assert Power256(3) == 256 * Power256(2);
  }

  lemma HeaderValues(page: seq<byte>, ptr: nat)
    requires ptr + NODE_HEADER <= |page|
    ensures var lo, hi, top := LittleEndian(page[ptr..ptr + 2]), LittleEndian(page[ptr + 2..ptr + 4]), LittleEndian(page[ptr + 4..ptr + 6]);
      && LittleEndian(page[ptr..ptr + 4]) == lo + hi * 0x1_0000
      && LittleEndian(page[ptr..ptr + 6]) == lo + hi * 0x1_0000 + top * 0x1_0000_0000
  {
    SplitAt(page, ptr, ptr + 2, ptr + 4);
    SplitAt(page, ptr, ptr + 4, ptr + 6);
    SmallPowers();
  }

  lemma NodeDecodes(page: seq<byte>, i: nat, ptr: nat)
    requires HoldsNode(page, i, ptr)
    ensures NodeAt(page, i) == Ok(Node(ptr, LittleEndian(page[ptr..ptr + 2]), LittleEndian(page[ptr + 2..ptr + 4]),
                                       LittleEndian(page[ptr + 4..ptr + 6]), LittleEndian(page[ptr + 6..ptr + 8])))
    ensures DataSize(NodeAt(page, i).value) == LittleEndian(page[ptr..ptr + 4])
    ensures Child(NodeAt(page, i).value) == LittleEndian(page[ptr..ptr + 6])
  {
    HeaderValues(page, ptr);
  }

  lemma OverflowDecodes(db: Lmdb, first: nat, span: nat, data: seq<byte>)
    requires db.Valid() && HoldsOverflow(db, first, span, data)
    ensures OverflowSpan(db, first, |data|) == Ok(span) && OverflowBytes(db, first, span, |data|) == data
  {
  }

  /** `node` is the decoded header of the item stored at its pointer. */
  ghost predicate Heads(db: Lmdb, page: seq<byte>, node: Node, item: Item)
    requires db.Valid()
  {
    && node.ptr + NODE_HEADER <= |page| && HoldsItemAt(db, page, node.ptr, item)
    && node.flags == item.flags && node.ksize == |item.key| && DataSize(node) == |item.value.data|
  }

  lemma InlineIsTaken(db: Lmdb, page: seq<byte>, node: Node, item: Item, s: Walk)
    requires db.Valid() && Heads(db, page, node, item) && item.value.Inline?
    ensures TakeLeaf(db, page, node, s) == s.(out := s.out + [EntryOf(item)])
  {
  }

  lemma OverflowIsTaken(db: Lmdb, page: seq<byte>, node: Node, item: Item, s: Walk)
    requires db.Valid() && Heads(db, page, node, item) && item.value.Overflow?
    requires s.visited + item.value.span <= db.Pages()
    ensures TakeLeaf(db, page, node, s) == s.(visited := s.visited + item.value.span, out := s.out + [EntryOf(item)])
  {
    OverflowDecodes(db, item.value.first, item.value.span, item.value.data);
  }

  /** A stored item is handed out as its entry, and costs the pages of its span. */
  lemma ItemIsTaken(db: Lmdb, page: seq<byte>, i: nat, item: Item, s: Walk)
    requires db.Valid() && HoldsItem(db, page, i, item) && s.visited + |ItemSpan(item)| <= db.Pages()
    ensures NodeAt(page, i).Ok?
    ensures TakeLeaf(db, page, NodeAt(page, i).value, s) ==
      s.(visited := s.visited + |ItemSpan(item)|, out := s.out + [EntryOf(item)])
  {
    var ptr: nat :| HoldsNode(page, i, ptr) && HoldsItemAt(db, page, ptr, item);
    NodeDecodes(page, i, ptr);
    assert Heads(db, page, NodeAt(page, i).value, item);
    if item.value.Overflow? {
      OverflowIsTaken(db, page, NodeAt(page, i).value, item, s);
    } else {
      InlineIsTaken(db, page, NodeAt(page, i).value, item, s);
    }
  }

  lemma PageDecodes(db: Lmdb, pgno: nat, n: nat, branch: bool)
    requires db.Valid() && HoldsPage(db, pgno, n, branch)
    ensures db.ReadPage(pgno) == Ok(db.Page(pgno))
    ensures var flags := LittleEndian(db.Page(pgno)[10..12]);
      && PageHeader(db.Page(pgno)) == Ok(Header(flags, n))
      && HasBit(flags, P_BRANCH) == branch && (branch || n == 0 || HasBit(flags, P_LEAF))
  {
  }

  // ----- Refinement -------------------------------------------------------------------------------------

  /** The walk after reading `pages` more pages and handing out `entries` more entries. */
  function After(s: Walk, pages: nat, entries: seq<Entry>): Walk {
    s.(visited := s.visited + pages, out := s.out + entries)
  }

  lemma AfterTwice(s: Walk, m: nat, a: seq<Entry>, n: nat, b: seq<Entry>)
    ensures After(After(s, m, a), n, b) == After(s, m + n, a + b)
  {
    assert s.out + a + b == s.out + (a + b);
  }

  lemma AfterPage(s: Walk, n: nat, entries: seq<Entry>)
    ensures After(After(s, 1, []), n, entries) == After(s, n + 1, entries)
  {
    assert s.out + [] == s.out;
  }

  lemma LeafNodeIsTaken(db: Lmdb, page: seq<byte>, header: Header, i: nat, item: Item, depth: nat, cap: nat, s: Walk)
    requires db.Valid() && depth < cap && i < header.count
    requires !HasBit(header.flags, P_BRANCH) && HasBit(header.flags, P_LEAF)
    requires HoldsItem(db, page, i, item) && s.visited + |ItemSpan(item)| <= db.Pages()
    ensures WalkNode(db, page, header, i, depth, cap, s) == After(s, |ItemSpan(item)|, [EntryOf(item)])
  {
    ItemIsTaken(db, page, i, item, s);
  }

  lemma {:induction false} ItemsAreTaken(db: Lmdb, page: seq<byte>, header: Header, items: seq<Item>, i: nat,
                                         depth: nat, cap: nat, s: Walk)
    requires db.Valid() && depth < cap && header.count == |items| && i <= |items|
    requires !HasBit(header.flags, P_BRANCH) && (i < |items| ==> HasBit(header.flags, P_LEAF))
    requires forall k :: 0 <= k < |items| ==> HoldsItem(db, page, k, items[k])
    requires s.error.None? && s.visited + |ItemPages(items, i)| <= db.Pages()
    ensures WalkNodes(db, page, header, i, depth, cap, s) == After(s, |ItemPages(items, i)|, ItemEntries(items, i))
    decreases |items| - i
  {
    if i < |items| {
      LeafNodeIsTaken(db, page, header, i, items[i], depth, cap, s);
      var t := After(s, |ItemSpan(items[i])|, [EntryOf(items[i])]);
      ItemsAreTaken(db, page, header, items, i + 1, depth, cap, t);
      AfterTwice(s, |ItemSpan(items[i])|, [EntryOf(items[i])], |ItemPages(items, i + 1)|, ItemEntries(items, i + 1));
    }
  }

  lemma ChildIsFollowed(db: Lmdb, page: seq<byte>, header: Header, i: nat, child: nat, depth: nat, cap: nat, s: Walk)
    requires db.Valid() && depth < cap && i < header.count
    requires HasBit(header.flags, P_BRANCH) && HoldsChild(page, i, child)
    ensures WalkNode(db, page, header, i, depth, cap, s) == WalkPage(db, child, depth + 1, cap, s)
  {
    var ptr: nat :| HoldsNode(page, i, ptr) && LittleEndian(page[ptr..ptr + 6]) == child;
    NodeDecodes(page, i, ptr);
  }

  /** The walk of a represented tree: its entries in order if the depth cap allows its height,
      and a depth error if it does not. */
  ghost predicate Refines(r: Walk, s: Walk, fits: bool, pages: nat, entries: seq<Entry>) {
    if fits then r == After(s, pages, entries) else r.error == Some(TooDeep)
  }

  lemma {:induction false} KidsAreWalked(db: Lmdb, page: seq<byte>, header: Header, kids: seq<Tree>, i: nat,
                                         depth: nat, cap: nat, s: Walk)
    requires db.Valid() && depth < cap && header.count == |kids| && i <= |kids| && HasBit(header.flags, P_BRANCH)
    requires forall k :: 0 <= k < |kids| ==> HoldsChild(page, k, kids[k].pgno) && Represents(db, kids[k])
    requires s.error.None? && s.visited + |KidPages(kids, i)| <= db.Pages()
    ensures Refines(WalkNodes(db, page, header, i, depth, cap, s), s, depth + 1 + KidHeight(kids, i) <= cap,
                    |KidPages(kids, i)|, KidEntries(kids, i))
    decreases kids, |kids| - i
  {
    hide HoldsChild, Represents, Entries, PageList, Height, WalkPage, HasBit;
    if i < |kids| {
      ChildIsFollowed(db, page, header, i, kids[i].pgno, depth, cap, s);
      TreeIsWalked(db, kids[i], depth + 1, cap, s);
      var t := After(s, |PageList(kids[i])|, Entries(kids[i]));
      if depth + 1 + Height(kids[i]) <= cap {
        KidsAreWalked(db, page, header, kids, i + 1, depth, cap, t);
        AfterTwice(s, |PageList(kids[i])|, Entries(kids[i]), |KidPages(kids, i + 1)|, KidEntries(kids, i + 1));
      }
    }
  }

  function HeaderOf(db: Lmdb, pgno: nat, n: nat): Header
    requires db.Valid() && pgno < db.Pages()
  {
    Header(LittleEndian(db.Page(pgno)[10..12]), n)
  }

  lemma PageIsEntered(db: Lmdb, pgno: nat, n: nat, branch: bool, depth: nat, cap: nat, s: Walk)
    requires db.Valid() && HoldsPage(db, pgno, n, branch) && depth < cap && s.visited < db.Pages()
    ensures WalkPage(db, pgno, depth, cap, s) ==
      WalkNodes(db, db.Page(pgno), HeaderOf(db, pgno, n), 0, depth, cap, After(s, 1, []))
  {
    PageDecodes(db, pgno, n, branch);
    assert s.out + [] == s.out;
  }

  lemma LeafIsWalked(db: Lmdb, t: Tree, depth: nat, cap: nat, s: Walk)
    requires db.Valid() && t.Leaf? && Represents(db, t) && depth < cap
    requires s.error.None? && s.visited + |PageList(t)| <= db.Pages()
    ensures WalkPage(db, t.pgno, depth, cap, s) == After(s, |PageList(t)|, Entries(t))
  {
    var n := |t.items|;
    PageIsEntered(db, t.pgno, n, false, depth, cap, s);
    PageDecodes(db, t.pgno, n, false);
    ItemsAreTaken(db, db.Page(t.pgno), HeaderOf(db, t.pgno, n), t.items, 0, depth, cap, After(s, 1, []));
    AfterPage(s, |ItemPages(t.items, 0)|, Entries(t));
  }

  lemma {:induction false} TreeIsWalked(db: Lmdb, t: Tree, depth: nat, cap: nat, s: Walk)
    requires db.Valid() && Represents(db, t)
    requires s.error.None? && s.visited + |PageList(t)| <= db.Pages()
    ensures Refines(WalkPage(db, t.pgno, depth, cap, s), s, depth + Height(t) <= cap, |PageList(t)|, Entries(t))
    decreases t, 0
  {
    if depth < cap {
      match t
      case Leaf(_, _) => LeafIsWalked(db, t, depth, cap, s);
      case Branch(pgno, kids) =>
        PageIsEntered(db, pgno, |kids|, true, depth, cap, s);
        PageDecodes(db, pgno, |kids|, true);
        KidsAreWalked(db, db.Page(pgno), HeaderOf(db, pgno, |kids|), kids, 0, depth, cap, After(s, 1, []));
        AfterPage(s, |KidPages(kids, 0)|, Entries(t));
    }
  }

  // ----- The page budget is enough ------------------------------------------------------------------------

  function Below(n: nat): (r: set<nat>)
    ensures |r| == n && forall x: nat :: x in r <==> x < n
  {
    if n == 0 then {} else Below(n - 1) + {n - 1}
  }

  /** Distinct pages of a file are no more than the file has. */
  lemma DistinctFit(s: seq<nat>, n: nat)
    requires NoRepeats(s) && forall x :: x in s ==> x < n
    ensures |s| <= n
  {
    DistinctSize(s);
    SubsetSize(Members(s), Below(n));
  }

  lemma {:induction false} ItemPagesExist(db: Lmdb, page: seq<byte>, items: seq<Item>, i: nat)
    requires db.Valid() && i <= |items| && forall k :: 0 <= k < |items| ==> HoldsItem(db, page, k, items[k])
    ensures forall x :: x in ItemPages(items, i) ==> x < db.Pages()
    decreases |items| - i
  {
    if i < |items| {
      ItemPagesExist(db, page, items, i + 1);
      assert HoldsItem(db, page, i, items[i]);
    }
  }

  lemma {:induction false} KidPagesExist(db: Lmdb, kids: seq<Tree>, i: nat)
    requires db.Valid() && i <= |kids| && forall k :: 0 <= k < |kids| ==> Represents(db, kids[k])
    ensures forall x :: x in KidPages(kids, i) ==> x < db.Pages()
    decreases kids, |kids| - i
  {
    if i < |kids| {
      PagesExist(db, kids[i]);
      KidPagesExist(db, kids, i + 1);
    }
  }

  lemma {:induction false} PagesExist(db: Lmdb, t: Tree)
    requires db.Valid() && Represents(db, t)
    ensures forall x :: x in PageList(t) ==> x < db.Pages()
    decreases t, 0
  {
    match t
    case Leaf(pgno, items) => ItemPagesExist(db, db.Page(pgno), items, 0);
    case Branch(_, kids) => KidPagesExist(db, kids, 0);
  }

  /** A table without entries, or without a root, is walked without reading a page. */
  lemma EmptyTableIsSkipped(db: Lmdb, rec: DbRecord)
    requires db.Valid() && (rec.entries == 0 || rec.root == 0xFFFF_FFFF_FFFF_FFFF)
    ensures WalkTree(db, rec) == Walk(0, [], None)
  {
  }

  /**
   The walk refines the tree. For every file whose pages represent a tree on distinct pages with
   disjoint overflow spans, it succeeds if and only if the declared depth allows the tree's
   height, and then it hands out exactly the leaf entries, in order.
   */
  lemma WalkRefinesTree(db: Lmdb, rec: DbRecord, t: Tree)
    requires db.Valid() && Represents(db, t) && NoRepeats(PageList(t))
    requires rec.root == t.pgno && rec.root != NO_PAGE && rec.entries > 0
    ensures var r := WalkTree(db, rec);
      && (r.error.None? <==> Height(t) <= rec.depth + 1 && Height(t) <= 64)
      && (r.error.None? ==> r.out == Entries(t) && r.visited == |PageList(t)| <= db.Pages())
  {
    PagesExist(db, t);
    DistinctFit(PageList(t), db.Pages());
    TreeIsWalked(db, t, 0, DepthCap(rec), Walk(0, [], None));
  }
}
