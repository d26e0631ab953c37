/**
 The other direction of the walk: on any bytes at all, a walk that succeeds has read a tree. Every
 malformed page, node or overflow header is therefore refused.
 */
module LmdbSound {
  import opened Prelude
  import opened Bytes
  import opened LmdbPages
  import opened LmdbWalk
  import opened LmdbTree

  lemma NodeIsHeld(page: seq<byte>, i: nat)
    requires NodeAt(page, i).Ok?
    ensures HoldsNode(page, i, NodeAt(page, i).value.ptr)
  {
  }

  lemma PageIsHeld(db: Lmdb, pgno: nat)
    requires db.Valid() && db.ReadPage(pgno).Ok? && PageHeader(db.ReadPage(pgno).value).Ok?
    ensures pgno < db.Pages() && db.ReadPage(pgno).value == db.Page(pgno)
    ensures var header := PageHeader(db.Page(pgno)).value;
      (HasBit(header.flags, P_BRANCH) || header.count == 0 || HasBit(header.flags, P_LEAF)) ==>
        HoldsPage(db, pgno, header.count, HasBit(header.flags, P_BRANCH))
  {
  }

  lemma OverflowIsHeld(db: Lmdb, pgno: nat, dsize: nat)
    requires db.Valid() && OverflowSpan(db, pgno, dsize).Ok?
    ensures var n := OverflowSpan(db, pgno, dsize).value;
      && n > 0 && pgno + n <= db.Pages() && dsize <= n * db.pageSize - PAGE_HEADER
      && HoldsOverflow(db, pgno, n, OverflowBytes(db, pgno, n, dsize))
  {
  }

  /** `node` is the header at its pointer, field by field. */
  ghost predicate Decodes(page: seq<byte>, node: Node) {
    var ptr := node.ptr;
    && ptr + NODE_HEADER <= |page| && LittleEndian(page[ptr..ptr + 4]) == DataSize(node)
    && LittleEndian(page[ptr + 4..ptr + 6]) == node.flags && LittleEndian(page[ptr + 6..ptr + 8]) == node.ksize
  }

  lemma NodeIsDecoded(page: seq<byte>, i: nat)
    requires NodeAt(page, i).Ok?
    ensures HoldsNode(page, i, NodeAt(page, i).value.ptr) && Decodes(page, NodeAt(page, i).value)
    ensures HoldsChild(page, i, Child(NodeAt(page, i).value))
  {
    NodeIsHeld(page, i);
    hide NodeAt, LittleEndian, DataSize, Child;
    NodeDecodes(page, i, NodeAt(page, i).value.ptr);
    assert LittleEndian(page[NodeAt(page, i).value.ptr..NodeAt(page, i).value.ptr + 6]) == Child(NodeAt(page, i).value);
  }

  lemma InlineIsHeld(db: Lmdb, page: seq<byte>, node: Node, s: Walk) returns (item: Item)
    requires db.Valid() && Decodes(page, node) && !HasBit(node.flags, F_BIGDATA)
    requires TakeLeaf(db, page, node, s).error.None? && s.error.None?
    ensures HoldsItemAt(db, page, node.ptr, item) && item.value.Inline?
    ensures TakeLeaf(db, page, node, s) == After(s, 0, [EntryOf(item)])
  {
    hide HasBit, LittleEndian, DataSize;
    var keyAt, dataAt := node.ptr + NODE_HEADER, node.ptr + NODE_HEADER + node.ksize;
    item := Item(page[keyAt..dataAt], node.flags, Inline(page[dataAt..dataAt + DataSize(node)]));
  }

  lemma BigIsHeld(db: Lmdb, page: seq<byte>, node: Node, s: Walk) returns (item: Item)
    requires db.Valid() && Decodes(page, node) && HasBit(node.flags, F_BIGDATA)
    requires TakeLeaf(db, page, node, s).error.None? && s.error.None?
    ensures HoldsItemAt(db, page, node.ptr, item) && item.value.Overflow?
    ensures TakeLeaf(db, page, node, s) == After(s, item.value.span, [EntryOf(item)])
  {
    hide HasBit, LittleEndian, DataSize, OverflowSpan, OverflowBytes, HoldsOverflow;
    var keyAt, dataAt := node.ptr + NODE_HEADER, node.ptr + NODE_HEADER + node.ksize;
    var first := LittleEndian(page[dataAt..dataAt + 8]);
    var n := OverflowSpan(db, first, DataSize(node)).value;
    OverflowIsHeld(db, first, DataSize(node));
    item := Item(page[keyAt..dataAt], node.flags, Overflow(first, n, OverflowBytes(db, first, n, DataSize(node))));
  }

  /** A leaf node that is taken holds an item, and hands out its entry. */
  lemma LeafIsHeld(db: Lmdb, page: seq<byte>, i: nat, s: Walk) returns (item: Item)
    requires db.Valid() && NodeAt(page, i).Ok? && s.error.None?
    requires TakeLeaf(db, page, NodeAt(page, i).value, s).error.None?
    ensures HoldsItem(db, page, i, item)
    ensures TakeLeaf(db, page, NodeAt(page, i).value, s) == After(s, |ItemSpan(item)|, [EntryOf(item)])
  {
    hide NodeAt, HasBit, HoldsNode, HoldsItemAt, Decodes, TakeLeaf, EntryOf;
    var node := NodeAt(page, i).value;
    NodeIsDecoded(page, i);
    if HasBit(node.flags, F_BIGDATA) {
      item := BigIsHeld(db, page, node, s);
    } else {
      item := InlineIsHeld(db, page, node, s);
    }
  }

  // ----- Lists in front -----------------------------------------------------------------------------------

  lemma {:induction false} ItemsShift(item: Item, items: seq<Item>, k: nat)
    requires k <= |items|
    ensures ItemPages([item] + items, k + 1) == ItemPages(items, k)
    ensures ItemEntries([item] + items, k + 1) == ItemEntries(items, k)
    decreases |items| - k
  {
    hide EntryOf, ItemSpan;
    if k < |items| {
      assert ([item] + items)[k + 1] == items[k];
      ItemsShift(item, items, k + 1);
    }
  }

  lemma {:induction false} KidsShift(kid: Tree, kids: seq<Tree>, k: nat)
    requires k <= |kids|
    ensures KidPages([kid] + kids, k + 1) == KidPages(kids, k)
    ensures KidEntries([kid] + kids, k + 1) == KidEntries(kids, k)
    ensures KidHeight([kid] + kids, k + 1) == KidHeight(kids, k)
    decreases |kids| - k
  {
    hide Entries, PageList, Height;
    if k < |kids| {
      assert ([kid] + kids)[k + 1] == kids[k];
      KidsShift(kid, kids, k + 1);
    }
  }

  // ----- Walks that succeed --------------------------------------------------------------------------------

  /** A failed walk stays failed. */
  lemma {:induction false} FailedStays(db: Lmdb, page: seq<byte>, header: Header, i: nat, depth: nat, cap: nat, s: Walk)
    requires db.Valid() && depth < cap && i <= header.count && s.error.Some?
    ensures WalkNodes(db, page, header, i, depth, cap, s) == s
  {
  }

  /** The leaf nodes from `i` on hold items. */
  lemma {:induction false} LeavesAreHeld(db: Lmdb, page: seq<byte>, header: Header, i: nat, depth: nat, cap: nat, s: Walk)
    returns (items: seq<Item>)
    requires db.Valid() && depth < cap && i <= header.count && !HasBit(header.flags, P_BRANCH) && s.error.None?
    requires WalkNodes(db, page, header, i, depth, cap, s).error.None?
    ensures |items| == header.count - i && (items != [] ==> HasBit(header.flags, P_LEAF))
    ensures forall k :: 0 <= k < |items| ==> HoldsItem(db, page, i + k, items[k])
    ensures WalkNodes(db, page, header, i, depth, cap, s) == After(s, |ItemPages(items, 0)|, ItemEntries(items, 0))
    decreases header.count - i
  {
    hide HoldsItem, TakeLeaf, EntryOf, ItemSpan, HasBit;
    if i == header.count {
      items := [];
      assert s.out + [] == s.out;
    } else {
      var t := WalkNode(db, page, header, i, depth, cap, s);
      if t.error.Some? {
        FailedStays(db, page, header, i + 1, depth, cap, t);
      }
      var item := LeafIsHeld(db, page, i, s);
      var rest := LeavesAreHeld(db, page, header, i + 1, depth, cap, t);
      items := [item] + rest;
      ItemsShift(item, rest, 0);
      AfterTwice(s, |ItemSpan(item)|, [EntryOf(item)], |ItemPages(rest, 0)|, ItemEntries(rest, 0));
      forall k | 0 <= k < |items| ensures HoldsItem(db, page, i + k, items[k]) {
        if k > 0 {
          assert HoldsItem(db, page, i + 1 + (k - 1), rest[k - 1]);
        }
      }
    }
  }

  lemma ChildIsHeld(db: Lmdb, page: seq<byte>, header: Header, i: nat, depth: nat, cap: nat, s: Walk)
    requires db.Valid() && depth < cap && i < header.count && HasBit(header.flags, P_BRANCH) && s.error.None?
    requires WalkNode(db, page, header, i, depth, cap, s).error.None?
    ensures NodeAt(page, i).Ok? && HoldsChild(page, i, Child(NodeAt(page, i).value))
    ensures WalkNode(db, page, header, i, depth, cap, s) == WalkPage(db, Child(NodeAt(page, i).value), depth + 1, cap, s)
  {
    hide HoldsChild, NodeAt, HasBit, WalkPage, Child;
    if NodeAt(page, i).Ok? {
      NodeIsDecoded(page, i);
    }
  }

  /** What the nodes of a branch page read. */
  ghost predicate KidsRead(db: Lmdb, page: seq<byte>, i: nat, depth: nat, cap: nat, kids: seq<Tree>)
    requires db.Valid()
  {
    && (forall k :: 0 <= k < |kids| ==> HoldsChild(page, i + k, kids[k].pgno) && Represents(db, kids[k]))
    && depth + 1 + KidHeight(kids, 0) <= cap
  }

  lemma KidsReadCons(db: Lmdb, page: seq<byte>, i: nat, depth: nat, cap: nat, kid: Tree, kids: seq<Tree>)
    requires db.Valid() && KidsRead(db, page, i + 1, depth, cap, kids)
    requires HoldsChild(page, i, kid.pgno) && Represents(db, kid) && depth + 1 + Height(kid) <= cap
    ensures KidsRead(db, page, i, depth, cap, [kid] + kids)
  {
    hide HoldsChild, Represents, Entries, PageList, Height;
    KidsShift(kid, kids, 0);
    forall k | 0 <= k < |[kid] + kids|
      ensures HoldsChild(page, i + k, ([kid] + kids)[k].pgno) && Represents(db, ([kid] + kids)[k])
    {
      if k > 0 {
        assert HoldsChild(page, i + 1 + (k - 1), kids[k - 1].pgno);
      }
    }
  }

  lemma {:induction false} BranchesAreRead(db: Lmdb, page: seq<byte>, header: Header, i: nat, depth: nat, cap: nat, s: Walk)
    returns (kids: seq<Tree>)
    requires db.Valid() && depth < cap && i <= header.count && HasBit(header.flags, P_BRANCH) && s.error.None?
    requires WalkNodes(db, page, header, i, depth, cap, s).error.None?
    ensures |kids| == header.count - i && KidsRead(db, page, i, depth, cap, kids)
    ensures WalkNodes(db, page, header, i, depth, cap, s) == After(s, |KidPages(kids, 0)|, KidEntries(kids, 0))
    decreases Room(depth, cap), 0, header.count - i
  {
    hide HoldsChild, Represents, Entries, PageList, Height, WalkPage, HasBit;
    if i == header.count {
      kids := [];
      assert s.out + [] == s.out;
    } else {
      var t := WalkNode(db, page, header, i, depth, cap, s);
      if t.error.Some? {
        FailedStays(db, page, header, i + 1, depth, cap, t);
      }
      ChildIsHeld(db, page, header, i, depth, cap, s);
      var kid := TreeIsRead(db, Child(NodeAt(page, i).value), depth + 1, cap, s);
      var rest := BranchesAreRead(db, page, header, i + 1, depth, cap, t);
      kids := [kid] + rest;
      KidsShift(kid, rest, 0);
      KidsReadCons(db, page, i, depth, cap, kid, rest);
      AfterTwice(s, |PageList(kid)|, Entries(kid), |KidPages(rest, 0)|, KidEntries(rest, 0));
    }
  }

  /** A page walked without error is the root of a represented tree of allowed height, and what was
      handed out are its entries. */
  lemma {:induction false} TreeIsRead(db: Lmdb, pgno: nat, depth: nat, cap: nat, s: Walk) returns (t: Tree)
    requires db.Valid() && s.error.None? && WalkPage(db, pgno, depth, cap, s).error.None?
    ensures Represents(db, t) && t.pgno == pgno && depth + Height(t) <= cap
    ensures WalkPage(db, pgno, depth, cap, s) == After(s, |PageList(t)|, Entries(t))
    decreases Room(depth, cap), 1, 0
  {
    PageIsHeld(db, pgno);
    var page := db.Page(pgno);
    var header := PageHeader(page).value;
    var entered := s.(visited := s.visited + 1);
    assert entered == After(s, 1, []) by { assert s.out + [] == s.out; }
    if HasBit(header.flags, P_BRANCH) {
      var kids := BranchesAreRead(db, page, header, 0, depth, cap, entered);
      t := Branch(pgno, kids);
      AfterPage(s, |KidPages(kids, 0)|, KidEntries(kids, 0));
    } else {
      var items := LeavesAreHeld(db, page, header, 0, depth, cap, entered);
      t := Leaf(pgno, items);
      AfterPage(s, |ItemPages(items, 0)|, ItemEntries(items, 0));
    }
  }

  /** A tree on the file, rooted where the record says, within the declared depth and the page budget. */
  ghost predicate IsTable(db: Lmdb, rec: DbRecord, t: Tree)
    requires db.Valid()
  {
    && Represents(db, t) && t.pgno == rec.root && |PageList(t)| <= db.Pages()
    && Height(t) <= rec.depth + 1 && Height(t) <= 64
  }

  /**
   The walk reads trees and nothing else. On any bytes, a walk of a table that is not empty succeeds
   with these entries if and only if the file holds a tree, within depth and budget, that has them.
   */
  lemma WalkReadsTreesIff(db: Lmdb, rec: DbRecord, entries: seq<Entry>)
    requires db.Valid() && rec.root != NO_PAGE && rec.entries > 0
    ensures WalkTree(db, rec).error.None? && WalkTree(db, rec).out == entries <==>
      exists t :: IsTable(db, rec, t) && Entries(t) == entries
  {
    var start := Walk(0, [], None);
    if t :| IsTable(db, rec, t) && Entries(t) == entries {
      TreeIsWalked(db, t, 0, DepthCap(rec), start);
    }
    if WalkTree(db, rec).error.None? {
      var t := TreeIsRead(db, rec.root, 0, DepthCap(rec), start);
      PageStaysWithin(db, rec.root, 0, DepthCap(rec), start);
      assert IsTable(db, rec, t);
    }
  }
}
