/**
 The B+tree walk of the LMDB reader, on arbitrary bytes: a recursive descent with a page budget
 and a depth cap. The callback is the list of entries handed to it.
 */
module LmdbWalk {
  import opened Prelude
  import opened Bytes
  import opened LmdbPages

  datatype Entry = Entry(key: seq<byte>, data: Option<seq<byte>>, flags: nat)

  /** `visited` counts tree pages and overflow pages; a walk that failed stays failed. */
  datatype Walk = Walk(visited: nat, out: seq<Entry>, error: Option<Error>)

  datatype Header = Header(flags: nat, count: nat)

  datatype Node = Node(ptr: nat, lo: nat, hi: nat, flags: nat, ksize: nat)

  function Fail(s: Walk, e: Error): Walk { s.(error := Some(e)) }

  function PageHeader(page: seq<byte>): Result<Header> {
    var flags :- ReadAt(page, 10, 2);
    var lower :- ReadAt(page, 12, 2);
    if lower < PAGE_HEADER || lower > |page| then Err(BadBounds)
    else if HasBit(flags, P_LEAF2) then Err(FixedSizeLeaf)
    else Ok(Header(flags, (lower - PAGE_HEADER) / 2))
  }

  function NodeAt(page: seq<byte>, i: nat): Result<Node> {
    var ptr :- ReadAt(page, PAGE_HEADER + 2 * i, 2);
    if ptr < PAGE_HEADER || ptr + NODE_HEADER > |page| then Err(BadPointer)
    else
      var lo :- ReadAt(page, ptr, 2);
      var hi :- ReadAt(page, ptr + 2, 2);
      var flags :- ReadAt(page, ptr + 4, 2);
      var ksize :- ReadAt(page, ptr + 6, 2);
      Ok(Node(ptr, lo, hi, flags, ksize))
  }

  /** The child page number: three 16-bit fields side by side. */
  function Child(node: Node): nat { node.lo + node.hi * 0x1_0000 + node.flags * 0x1_0000_0000 }

  function DataSize(node: Node): nat { node.lo + node.hi * 0x1_0000 }

  /** How many pages an overflow value spans, once its header has been found sound. */
  function OverflowSpan(db: Lmdb, pgno: nat, dsize: nat): Result<nat>
    requires db.Valid()
  {
    if pgno >= db.Pages() then Err(PastEnd)
    else
      var head := db.Page(pgno);
      var number :- ReadAt(head, 0, 8);
      var flags :- ReadAt(head, 10, 2);
      if number != pgno || !HasBit(flags, P_OVERFLOW) then Err(BadOverflow)
      else
        var n :- ReadAt(head, 12, 4);
        if n == 0 || pgno + n > db.Pages() || dsize > n * db.pageSize - PAGE_HEADER then Err(BadOverflow)
        else Ok(n)
  }

  /** The value's bytes, which may run across page boundaries. */
  function OverflowBytes(db: Lmdb, pgno: nat, n: nat, dsize: nat): (data: seq<byte>)
    requires db.Valid() && n > 0 && pgno + n <= db.Pages() && dsize <= n * db.pageSize - PAGE_HEADER
    ensures |data| == dsize
  {
    db.SpanFits(pgno, n);
    db.file[pgno * db.pageSize + PAGE_HEADER..pgno * db.pageSize + PAGE_HEADER + dsize]
  }

  /** One leaf node: hand its entry to the callback. */
  function TakeLeaf(db: Lmdb, page: seq<byte>, node: Node, s: Walk): (r: Walk)
    requires db.Valid()
  {
    var keyAt := node.ptr + NODE_HEADER;
    var dataAt := keyAt + node.ksize;
    var dsize := DataSize(node);
    if HasBit(node.flags, F_DUPDATA) then Fail(s, DupSorted)
    else if dataAt > |page| then Fail(s, BadKey)
    else if HasBit(node.flags, F_BIGDATA) then
      match ReadAt(page, dataAt, 8)
      case Err(e) => Fail(s, e)
      case Ok(pgno) =>
        (match OverflowSpan(db, pgno, dsize)
         case Err(e) => Fail(s, e)
         case Ok(n) =>
           var t := s.(visited := s.visited + n);
           if t.visited > db.Pages() then Fail(t, OverBudget)
           else if dsize > MAX_VALUE_BYTES then t.(out := t.out + [Entry(page[keyAt..dataAt], None, node.flags)])
           else t.(out := t.out + [Entry(page[keyAt..dataAt], Some(OverflowBytes(db, pgno, n, dsize)), node.flags)]))
    else if dataAt + dsize > |page| then Fail(s, BadValue)
    else s.(out := s.out + [Entry(page[keyAt..dataAt], Some(page[dataAt..dataAt + dsize]), node.flags)])
  }

  function Room(depth: nat, cap: nat): nat { if depth < cap then cap - depth else 0 }

  /** `walk_page`. */
  function WalkPage(db: Lmdb, pgno: nat, depth: nat, cap: nat, s: Walk): Walk
    requires db.Valid()
    decreases Room(depth, cap), 1, 0
  {
    if depth >= cap then Fail(s, TooDeep)
    else
      var t := s.(visited := s.visited + 1);
      if t.visited > db.Pages() then Fail(t, OverBudget)
      else
        match db.ReadPage(pgno)
        case Err(e) => Fail(t, e)
        case Ok(page) =>
          (match PageHeader(page)
           case Err(e) => Fail(t, e)
           case Ok(header) => WalkNodes(db, page, header, 0, depth, cap, t))
  }

  /** The node loop of `walk_page`, from node `i` on. */
  function WalkNodes(db: Lmdb, page: seq<byte>, header: Header, i: nat, depth: nat, cap: nat, s: Walk): Walk
    requires db.Valid() && depth < cap && i <= header.count
    decreases Room(depth, cap), 0, header.count - i
  {
    if i == header.count || s.error.Some? then s
    else WalkNodes(db, page, header, i + 1, depth, cap, WalkNode(db, page, header, i, depth, cap, s))
  }

  function WalkNode(db: Lmdb, page: seq<byte>, header: Header, i: nat, depth: nat, cap: nat, s: Walk): Walk
    requires db.Valid() && depth < cap && i < header.count
    decreases Room(depth, cap), 0, 0
  {
    match NodeAt(page, i)
    case Err(e) => Fail(s, e)
    case Ok(node) =>
      if HasBit(header.flags, P_BRANCH) then WalkPage(db, Child(node), depth + 1, cap, s)
      else if HasBit(header.flags, P_LEAF) then TakeLeaf(db, page, node, s)
      else Fail(s, BadPageType)
  }

  /** `walk`. */
  function WalkTree(db: Lmdb, rec: DbRecord): Walk
    requires db.Valid()
  {
    if rec.root == NO_PAGE || rec.entries == 0 then Walk(0, [], None)
    else WalkPage(db, rec.root, 0, DepthCap(rec), Walk(0, [], None))
  }

  function DepthCap(rec: DbRecord): nat { if rec.depth + 1 < MAX_DEPTH then rec.depth + 1 else MAX_DEPTH }

  /** `walk_page` as the program runs it. */
  method DescendPage(db: Lmdb, pgno: nat, depth: nat, cap: nat, s: Walk) returns (r: Walk)
    requires db.Valid()
    ensures r == WalkPage(db, pgno, depth, cap, s)
    decreases Room(depth, cap), 1, 0
  {
    if depth >= cap {
      return Fail(s, TooDeep);
    }
    r := s.(visited := s.visited + 1);
    if r.visited > db.Pages() {
      return Fail(r, OverBudget);
    }
    var page := db.ReadPage(pgno);
    if page.Err? {
      return Fail(r, page.error);
    }
    var header := PageHeader(page.value);
    if header.Err? {
      return Fail(r, header.error);
    }
    r := DescendNodes(db, page.value, header.value, depth, cap, r);
  }

  /** Its loop over the nodes, descending into branches. */
  method DescendNodes(db: Lmdb, page: seq<byte>, header: Header, depth: nat, cap: nat, s: Walk) returns (r: Walk)
    requires db.Valid() && depth < cap
    ensures r == WalkNodes(db, page, header, 0, depth, cap, s)
    decreases Room(depth, cap), 0, 0
  {
    r := s;
    var i := 0;
    while i < header.count && r.error.None?
      invariant 0 <= i <= header.count
      invariant WalkNodes(db, page, header, i, depth, cap, r) == WalkNodes(db, page, header, 0, depth, cap, s)
    {
      ghost var next := WalkNode(db, page, header, i, depth, cap, r);
      var node := NodeAt(page, i);
      if node.Err? {
        r := Fail(r, node.error);
      } else if HasBit(header.flags, P_BRANCH) {
        r := DescendPage(db, Child(node.value), depth + 1, cap, r);
      } else if HasBit(header.flags, P_LEAF) {
        r := TakeLeaf(db, page, node.value, r);
      } else {
        r := Fail(r, BadPageType);
      }
      assert r == next;
      i := i + 1;
    }
  }

  // ----- Any bytes: the budget ------------------------------------------------------------------------

  /** Within the file's page count, or stopped for having exceeded it by at most one read. */
  ghost predicate WithinBudget(db: Lmdb, s: Walk)
    requires db.Valid()
  {
    s.visited <= db.Pages() || (s.error == Some(OverBudget) && s.visited <= 2 * db.Pages())
  }

  /** A later state of the same walk: entries already handed out stay. */
  predicate Extends(s: Walk, r: Walk) {
    s.visited <= r.visited && |s.out| <= |r.out| && r.out[..|s.out|] == s.out
  }

  lemma ExtendsIsTransitive(a: Walk, b: Walk, c: Walk)
    requires Extends(a, b) && Extends(b, c)
    ensures Extends(a, c)
  {
    assert c.out[..|a.out|] == c.out[..|b.out|][..|a.out|];
  }

  lemma LeafStaysWithin(db: Lmdb, page: seq<byte>, node: Node, s: Walk)
    requires db.Valid() && s.visited <= db.Pages()
    ensures WithinBudget(db, TakeLeaf(db, page, node, s)) && Extends(s, TakeLeaf(db, page, node, s))
  {
  }

  lemma {:induction false} PageStaysWithin(db: Lmdb, pgno: nat, depth: nat, cap: nat, s: Walk)
    requires db.Valid() && s.visited <= db.Pages()
    ensures WithinBudget(db, WalkPage(db, pgno, depth, cap, s)) && Extends(s, WalkPage(db, pgno, depth, cap, s))
    decreases Room(depth, cap), 1, 0
  {
    if depth < cap && s.visited < db.Pages() {
      var t, read := s.(visited := s.visited + 1), db.ReadPage(pgno);
      if read.Ok? && PageHeader(read.value).Ok? {
        NodesStayWithin(db, read.value, PageHeader(read.value).value, 0, depth, cap, t);
      }
    }
  }

  lemma {:induction false} NodeStaysWithin(db: Lmdb, page: seq<byte>, header: Header, i: nat, depth: nat, cap: nat, s: Walk)
    requires db.Valid() && s.visited <= db.Pages() && depth < cap && i < header.count
    ensures WithinBudget(db, WalkNode(db, page, header, i, depth, cap, s))
    ensures Extends(s, WalkNode(db, page, header, i, depth, cap, s))
    decreases Room(depth, cap), 0, 0
  {
    var node := NodeAt(page, i);
    if node.Ok? && HasBit(header.flags, P_BRANCH) {
      PageStaysWithin(db, Child(node.value), depth + 1, cap, s);
    } else if node.Ok? && HasBit(header.flags, P_LEAF) {
      LeafStaysWithin(db, page, node.value, s);
    }
  }

  lemma {:induction false} NodesStayWithin(db: Lmdb, page: seq<byte>, header: Header, i: nat, depth: nat, cap: nat, s: Walk)
    requires db.Valid() && WithinBudget(db, s) && depth < cap && i <= header.count
    ensures WithinBudget(db, WalkNodes(db, page, header, i, depth, cap, s))
    ensures Extends(s, WalkNodes(db, page, header, i, depth, cap, s))
    decreases Room(depth, cap), 0, header.count - i
  {
    if i < header.count && s.error.None? {
      var t := WalkNode(db, page, header, i, depth, cap, s);
      NodeStaysWithin(db, page, header, i, depth, cap, s);
      NodesStayWithin(db, page, header, i + 1, depth, cap, t);
      ExtendsIsTransitive(s, t, WalkNodes(db, page, header, i + 1, depth, cap, t));
    }
  }

  /** On any bytes the walk ends; if it succeeds it has visited no more pages than the file has. */
  lemma AnyBytesStayWithin(db: Lmdb, rec: DbRecord)
    requires db.Valid()
    ensures var r := WalkTree(db, rec);
      r.visited <= 2 * db.Pages() && (r.error != Some(OverBudget) ==> r.visited <= db.Pages())
  {
    PageStaysWithin(db, rec.root, 0, DepthCap(rec), Walk(0, [], None));
  }
}
