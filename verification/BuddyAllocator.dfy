/**
 The zoned buddy allocator of physical frames with per-CPU page stacks (mem/pmm.c).

 The ghost map `cells` says, for every usable frame, which block it belongs to and who owns that block.
 The page descriptors, the free lists and the per-CPU stacks are the kernel's own data; the invariant
 ties them to the map. Facts about single frames and lists are named predicates, so that a proof calls up
 just the instances it needs.
 */
module BuddyAllocator {
  import opened Basics
  import opened Pow2Blocks

  const MAX_ORDER := 18
  const ZONES := 3
  const DMA := 0
  const DMA32 := 1
  const NORMAL := 2
  const BATCH := 16
  const STACK := 32
  const CPUS := 64

  datatype Flag = Free | Reserved | Kernel | User | Cow | Zero | Cached | Dirty | Locked
                | Dma | Dma32 | Slab | KmallocLarge | Vmalloc

  /** A page descriptor; the list links are replaced by the lists themselves. */
  datatype Desc = Desc(flags: set<Flag>, refs: int, order: int, zone: int)

  datatype Owner = OnList | OnCpu(cpu: int) | InHand | Caller

  datatype Block = Block(head: int, order: int, owner: Owner)

  type Cells = map<int, Block>

  /** 16 MiB and 4 GiB, in frames of 4 KiB. */
  function ZoneOf(p: int): int { if p < 0x1000 then DMA else if p < 0x100000 then DMA32 else NORMAL }

  predicate In(q: int, b: Block) { b.order >= 0 && b.head <= q < b.head + Pow2(b.order) }

  predicate BlockOk(b: Block) {
    && 0 <= b.order < MAX_ORDER && 0 <= b.head && Aligned(b.head, b.order)
    && ZoneOf(b.head) == ZoneOf(b.head + Pow2(b.order) - 1)
  }

  /** A frame lies in the block it names, and all frames of that block name it. */
  ghost predicate CellOk(cells: Cells, p: int)
    requires p in cells
  {
    In(p, cells[p]) && forall q :: In(q, cells[p]) ==> q in cells && cells[q] == cells[p]
  }

  ghost predicate Disjoint(cells: Cells) {
    forall p {:trigger CellOk(cells, p)} :: p in cells ==> CellOk(cells, p)
  }

  /** The usable frames are partitioned into aligned blocks, each inside one zone. */
  ghost predicate Partition(cells: Cells) {
    Disjoint(cells) && forall p {:trigger BlockOk(cells[p])} :: p in cells ==> BlockOk(cells[p])
  }

  ghost predicate IsBlock(cells: Cells, b: Block) { b.order >= 0 && b.head in cells && cells[b.head] == b }

  function ListIndex(b: Block): int { ZoneOf(b.head) * MAX_ORDER + b.order }

  ghost predicate OnListAt(cells: Cells, h: int, i: int) {
    h in cells && cells[h].head == h && cells[h].owner == OnList && ListIndex(cells[h]) == i
  }

  ghost predicate ListOk(list: seq<int>, cells: Cells, i: int) {
    NoDup(list) && forall h :: h in list <==> OnListAt(cells, h, i)
  }

  /** The free lists hold exactly the heads of the free blocks, each on the list of its zone and order. */
  ghost predicate ListsOk(lists: seq<seq<int>>, cells: Cells) {
    |lists| == ZONES * MAX_ORDER && forall i {:trigger ListOk(lists[i], cells, i)} :: 0 <= i < |lists| ==> ListOk(lists[i], cells, i)
  }

  /** What the descriptor of a block head says, by owner; the head of a block in hand is not constrained. */
  predicate DescOk(d: Desc, b: Block) {
    match b.owner
    case OnList => Free in d.flags && d.refs == 0 && d.order == b.order
    case OnCpu(_) => Free in d.flags ==> d.refs != 0
    case Caller => d.refs >= 1 && d.order == b.order
    case InHand => true
  }

  /** Only heads are constrained: frames inside a block may carry stale descriptors. */
  ghost predicate DescAt(pages: seq<Desc>, cells: Cells, p: int)
    requires 0 <= p < |pages|
  {
    && pages[p].zone == ZoneOf(p)
    && (p !in cells ==> Free !in pages[p].flags)
    && (p in cells && cells[p].head == p ==> DescOk(pages[p], cells[p]))
  }

  ghost predicate DescsOk(pages: seq<Desc>, cells: Cells) {
    && (forall p :: p in cells ==> 0 <= p < |pages|)
    && (forall p {:trigger DescAt(pages, cells, p)} :: 0 <= p < |pages| ==> DescAt(pages, cells, p))
  }

  ghost predicate HeldAt(cells: Cells, p: int) { p in cells && cells[p].owner == InHand }

  datatype Core = Core(pages: seq<Desc>, lists: seq<seq<int>>, cells: Cells)

  /** The invariant of the zones while at most the block at `hand` is in hand. */
  ghost predicate CoreOk(c: Core, hand: int) {
    && Partition(c.cells) && DescsOk(c.pages, c.cells) && ListsOk(c.lists, c.cells)
    && forall p {:trigger HeldAt(c.cells, p)} :: HeldAt(c.cells, p) ==> 0 <= hand && c.cells[p].head == hand
  }

  // ---- Repainting blocks ---------------------------------------------------------------------

  ghost function Paint(cells: Cells, b: Block): Cells {
    map q | q in cells :: if In(q, b) then b else cells[q]
  }

  lemma Inside(cells: Cells, b: Block, q: int)
    requires Disjoint(cells) && IsBlock(cells, b) && In(q, b)
    ensures q in cells && cells[q] == b
  {
    assert CellOk(cells, b.head);
  }

  // Blocks outside a block keep clear of it.
  lemma Outside(cells: Cells, b: Block, p: int, q: int)
    requires Disjoint(cells) && IsBlock(cells, b) && p in cells && In(q, cells[p]) && !In(p, b)
    ensures q in cells && cells[q] == cells[p] && !In(q, b)
  {
    assert CellOk(cells, p) && CellOk(cells, b.head);
  }

  lemma SameHead(cells: Cells, b: Block, p: int)
    requires Disjoint(cells) && IsBlock(cells, b) && p in cells && cells[p].head == b.head
    ensures cells[p] == b && In(p, b)
  {
    assert CellOk(cells, p);
    assert In(b.head, cells[p]);
  }

  lemma RelabelDisjoint(cells: Cells, b: Block, o: Owner)
    requires Disjoint(cells) && IsBlock(cells, b)
    ensures Disjoint(Paint(cells, b.(owner := o))) && IsBlock(Paint(cells, b.(owner := o)), b.(owner := o))
  {
    var cells' := Paint(cells, b.(owner := o));
    forall p | p in cells' ensures CellOk(cells', p) {
      assert CellOk(cells, p);
      forall q | In(q, cells'[p]) ensures q in cells' && cells'[q] == cells'[p] {
        if In(p, b) { Inside(cells, b, q); } else { Outside(cells, b, p, q); }
      }
    }
  }

  ghost function Lower(b: Block, o: Owner): Block { Block(b.head, b.order - 1, o) }
  ghost function Upper(b: Block, o: Owner): Block
    requires b.order >= 1
  {
    Block(b.head + Pow2(b.order - 1), b.order - 1, o)
  }

  lemma InHalf(b: Block, q: int)
    requires b.order >= 1
    ensures In(q, b) <==> In(q, Lower(b, InHand)) || In(q, Upper(b, OnList))
    ensures !(In(q, Lower(b, InHand)) && In(q, Upper(b, OnList)))
  {
  }

  ghost function SplitCells(cells: Cells, b: Block): Cells
    requires b.order >= 1
  {
    Paint(Paint(cells, Lower(b, InHand)), Upper(b, OnList))
  }

  lemma SplitDisjoint(cells: Cells, b: Block)
    requires Disjoint(cells) && IsBlock(cells, b) && b.order >= 1
    ensures Disjoint(SplitCells(cells, b)) && IsBlock(SplitCells(cells, b), Lower(b, InHand))
  {
    var cells' := SplitCells(cells, b);
    InHalf(b, b.head);
    forall p | p in cells' ensures CellOk(cells', p) {
      assert CellOk(cells, p);
      InHalf(b, p);
      forall q | In(q, cells'[p]) ensures q in cells' && cells'[q] == cells'[p] {
        InHalf(b, q);
        if In(p, b) { Inside(cells, b, q); } else { Outside(cells, b, p, q); }
      }
    }
  }

  // `m` is made of the blocks `b` and `c`, in either order.
  predicate Joined(b: Block, c: Block, m: Block) {
    && 0 <= b.order == c.order && m.order == b.order + 1
    && ((m.head == b.head && c.head == b.head + Pow2(b.order)) || (m.head == c.head && b.head == c.head + Pow2(c.order)))
  }

  lemma InEither(b: Block, c: Block, m: Block, q: int)
    requires Joined(b, c, m)
    ensures In(q, m) <==> In(q, b) || In(q, c)
  {
  }

  lemma MergeDisjoint(cells: Cells, b: Block, c: Block, m: Block)
    requires Disjoint(cells) && IsBlock(cells, b) && IsBlock(cells, c) && Joined(b, c, m)
    ensures Disjoint(Paint(cells, m)) && IsBlock(Paint(cells, m), m)
  {
    var cells' := Paint(cells, m);
    InEither(b, c, m, m.head);
    forall p | p in cells' ensures CellOk(cells', p) {
      assert CellOk(cells, p);
      InEither(b, c, m, p);
      forall q | In(q, cells'[p]) ensures q in cells' && cells'[q] == cells'[p] {
        InEither(b, c, m, q);
        if In(p, m) {
          if In(q, b) { Inside(cells, b, q); } else { Inside(cells, c, q); }
        } else {
          Outside(cells, b, p, q);
          Outside(cells, c, p, q);
        }
      }
    }
  }

  lemma RelabelPartition(cells: Cells, b: Block, o: Owner)
    requires Partition(cells) && IsBlock(cells, b)
    ensures Partition(Paint(cells, b.(owner := o))) && IsBlock(Paint(cells, b.(owner := o)), b.(owner := o))
  {
    RelabelDisjoint(cells, b, o);
    var cells' := Paint(cells, b.(owner := o));
    assert BlockOk(cells[b.head]);
    forall p | p in cells' ensures BlockOk(cells'[p]) { assert BlockOk(cells[p]); }
  }

  lemma SplitShape(b: Block)
    requires BlockOk(b) && b.order >= 1
    ensures BlockOk(Lower(b, InHand)) && BlockOk(Upper(b, OnList)) && ZoneOf(Upper(b, OnList).head) == ZoneOf(b.head)
    ensures BuddyOf(Upper(b, OnList).head, b.order - 1) == b.head
  {
    Halves(b.head, b.order - 1);
  }

  lemma SplitPartition(cells: Cells, b: Block)
    requires Partition(cells) && IsBlock(cells, b) && b.order >= 1
    ensures Partition(SplitCells(cells, b)) && IsBlock(SplitCells(cells, b), Lower(b, InHand))
  {
    SplitDisjoint(cells, b);
    assert BlockOk(cells[b.head]);
    SplitShape(b);
    var cells' := SplitCells(cells, b);
    forall p | p in cells' ensures BlockOk(cells'[p]) { assert BlockOk(cells[p]); }
  }

  ghost function Merged(b: Block): Block
    requires b.order >= 0
  {
    var other := BuddyOf(b.head, b.order);
    Block(if other < b.head then other else b.head, b.order + 1, InHand)
  }

  ghost function Buddy(b: Block, o: Owner): Block
    requires b.order >= 0
  {
    Block(BuddyOf(b.head, b.order), b.order, o)
  }

  lemma MergeShape(b: Block)
    requires BlockOk(b) && b.order + 1 < MAX_ORDER && BlockOk(Buddy(b, OnList)) && ZoneOf(BuddyOf(b.head, b.order)) == ZoneOf(b.head)
    ensures BlockOk(Merged(b)) && Joined(b, Buddy(b, OnList), Merged(b))
  {
    Joins(b.head, b.order);
  }

  lemma MergePartition(cells: Cells, b: Block)
    requires Partition(cells) && IsBlock(cells, b) && IsBlock(cells, Buddy(b, OnList)) && b.order + 1 < MAX_ORDER
    requires ZoneOf(b.head) == ZoneOf(BuddyOf(b.head, b.order))
    ensures Partition(Paint(cells, Merged(b))) && IsBlock(Paint(cells, Merged(b)), Merged(b))
  {
    var cells' := Paint(cells, Merged(b));
    assert BlockOk(cells[b.head]) && BlockOk(cells[BuddyOf(b.head, b.order)]);
    MergeShape(b);
    MergeDisjoint(cells, b, Buddy(b, OnList), Merged(b));
    forall p | p in cells' ensures BlockOk(cells'[p]) { assert BlockOk(cells[p]); }
  }

  /**
   Stale descriptors inside larger blocks never mislead the coalescing test: the buddy of a block is never
   inside a larger block, so when it is a usable frame at all it is the head of a block of no larger order.
   */
  lemma BuddyIsHead(cells: Cells, b: Block)
    requires Partition(cells) && IsBlock(cells, b)
    requires BuddyOf(b.head, b.order) in cells
    ensures var x := BuddyOf(b.head, b.order); cells[x].head == x && cells[x].order <= b.order
  {
    var x := BuddyOf(b.head, b.order);
    var c := cells[x];
    assert BlockOk(cells[b.head]) && BlockOk(cells[x]) && CellOk(cells, x);
    Joins(b.head, b.order);
    var meets := In(b.head, cells[x]);
    if c.order > b.order {
      Nested(c.head, c.order, if x < b.head then x else b.head, b.order + 1, x);
    }
    AlignedDown(x, b.order, c.order);
    Nested(x, c.order, c.head, c.order, x);
  }

  // ---- Lists ---------------------------------------------------------------------------------

  function RemoveItem(s: seq<int>, x: int): seq<int> {
    if s == [] then [] else if s[0] == x then s[1..] else [s[0]] + RemoveItem(s[1..], x)
  }

  lemma {:induction false} RemoveItemOk(s: seq<int>, x: int)
    requires NoDup(s)
    ensures NoDup(RemoveItem(s, x))
    ensures forall y :: y in RemoveItem(s, x) <==> y in s && y != x
  {
    if s != [] {
      assert forall y :: y in s <==> y == s[0] || y in s[1..];
      RemoveItemOk(s[1..], x);
      var r := RemoveItem(s[1..], x);
      assert s[0] !in s[1..];
      forall j | 0 <= j < |r| ensures r[j] != s[0] { assert r[j] in r; }
    }
  }

  /** The listed heads change by one: `x` leaves list `i`, or joins it. */
  ghost predicate ListedLess(cells: Cells, cells': Cells, x: int, i: int) {
    forall h, j :: OnListAt(cells', h, j) <==> OnListAt(cells, h, j) && !(h == x && j == i)
  }

  ghost predicate ListedMore(cells: Cells, cells': Cells, x: int, i: int) {
    forall h, j :: OnListAt(cells', h, j) <==> OnListAt(cells, h, j) || (h == x && j == i)
  }

  lemma PushLists(lists: seq<seq<int>>, cells: Cells, cells': Cells, y: int, i: int)
    requires ListsOk(lists, cells) && 0 <= i < |lists| && !OnListAt(cells, y, i) && ListedMore(cells, cells', y, i)
    ensures ListsOk(lists[i := [y] + lists[i]], cells')
  {
    var lists' := lists[i := [y] + lists[i]];
    forall j | 0 <= j < |lists'| ensures ListOk(lists'[j], cells', j) { assert ListOk(lists[j], cells, j); }
  }

  lemma DropLists(lists: seq<seq<int>>, cells: Cells, cells': Cells, x: int, i: int)
    requires ListsOk(lists, cells) && 0 <= i < |lists| && ListedLess(cells, cells', x, i)
    ensures ListsOk(lists[i := RemoveItem(lists[i], x)], cells')
  {
    var lists' := lists[i := RemoveItem(lists[i], x)];
    assert ListOk(lists[i], cells, i);
    RemoveItemOk(lists[i], x);
    forall j | 0 <= j < |lists'| ensures ListOk(lists'[j], cells', j) { assert ListOk(lists[j], cells, j); }
  }

  lemma SameLists(lists: seq<seq<int>>, cells: Cells, cells': Cells)
    requires ListsOk(lists, cells) && forall h, j :: OnListAt(cells', h, j) <==> OnListAt(cells, h, j)
    ensures ListsOk(lists, cells')
  {
    forall j | 0 <= j < |lists| ensures ListOk(lists[j], cells', j) { assert ListOk(lists[j], cells, j); }
  }

  lemma RelabelOnList(cells: Cells, b: Block, o: Owner)
    requires Disjoint(cells) && IsBlock(cells, b)
    ensures var cells' := Paint(cells, b.(owner := o));
            forall h, j :: OnListAt(cells', h, j) <==> if h == b.head then o == OnList && j == ListIndex(b) else OnListAt(cells, h, j)
  {
    var cells' := Paint(cells, b.(owner := o));
    forall h, j ensures OnListAt(cells', h, j) <==> if h == b.head then o == OnList && j == ListIndex(b) else OnListAt(cells, h, j) {
      if In(h, b) { Inside(cells, b, h); }
    }
  }

  lemma SplitOnList(cells: Cells, b: Block)
    requires Disjoint(cells) && IsBlock(cells, b) && b.order >= 1 && b.owner == InHand
    ensures ListedMore(cells, SplitCells(cells, b), Upper(b, OnList).head, ListIndex(Upper(b, OnList)))
  {
    var u := Upper(b, OnList);
    Inside(cells, b, u.head);
    forall h, j ensures OnListAt(SplitCells(cells, b), h, j) <==> OnListAt(cells, h, j) || (h == u.head && j == ListIndex(u)) {
      InHalf(b, h);
      if In(h, b) { Inside(cells, b, h); }
    }
  }

  lemma MergeOnList(cells: Cells, b: Block, c: Block, m: Block)
    requires Disjoint(cells) && IsBlock(cells, b) && IsBlock(cells, c) && Joined(b, c, m)
    requires b.owner == InHand && c.owner == OnList && m.owner == InHand
    ensures ListedLess(cells, Paint(cells, m), c.head, ListIndex(c))
  {
    forall h, j ensures OnListAt(Paint(cells, m), h, j) <==> OnListAt(cells, h, j) && !(h == c.head && j == ListIndex(c)) {
      InEither(b, c, m, h);
      if In(h, b) { Inside(cells, b, h); }
      if In(h, c) { Inside(cells, c, h); }
    }
  }

  // ---- Descriptors ---------------------------------------------------------------------------

  lemma RelabelDescs(pages: seq<Desc>, cells: Cells, b: Block, o: Owner, d: Desc)
    requires Disjoint(cells) && IsBlock(cells, b) && DescsOk(pages, cells)
    requires d.zone == ZoneOf(b.head) && DescOk(d, b.(owner := o))
    ensures 0 <= b.head < |pages| && DescsOk(pages[b.head := d], Paint(cells, b.(owner := o)))
  {
    var pages', cells' := pages[b.head := d], Paint(cells, b.(owner := o));
    forall p | 0 <= p < |pages'| ensures DescAt(pages', cells', p) {
      assert DescAt(pages, cells, p);
      if In(p, b) { Inside(cells, b, p); }
    }
  }

  lemma SplitDescs(pages: seq<Desc>, cells: Cells, b: Block, d: Desc)
    requires Disjoint(cells) && IsBlock(cells, b) && b.order >= 1 && DescsOk(pages, cells)
    requires d.zone == ZoneOf(Upper(b, OnList).head) && DescOk(d, Upper(b, OnList))
    ensures 0 <= Upper(b, OnList).head < |pages| && DescsOk(pages[Upper(b, OnList).head := d], SplitCells(cells, b))
  {
    var u := Upper(b, OnList);
    Inside(cells, b, u.head);
    var pages', cells' := pages[u.head := d], SplitCells(cells, b);
    forall p | 0 <= p < |pages'| ensures DescAt(pages', cells', p) {
      assert DescAt(pages, cells, p);
      InHalf(b, p);
      if In(p, b) { Inside(cells, b, p); }
    }
  }

  lemma MergeDescs(pages: seq<Desc>, cells: Cells, m: Block)
    requires DescsOk(pages, cells) && m.owner == InHand
    ensures DescsOk(pages, Paint(cells, m))
  {
    forall p | 0 <= p < |pages| ensures DescAt(pages, Paint(cells, m), p) { assert DescAt(pages, cells, p); }
  }

  // ---- One step at a time --------------------------------------------------------------------

  // A block changes owner between the caller, a CPU stack and the hand.
  ghost function Relabelled(c: Core, b: Block, o: Owner, d: Desc): Core
    requires 0 <= b.head < |c.pages|
  {
    Core(c.pages[b.head := d], c.lists, Paint(c.cells, b.(owner := o)))
  }

  lemma RelabelKeeps(c: Core, b: Block, o: Owner, d: Desc, hand: int)
    requires CoreOk(c, hand) && (hand == -1 || hand == b.head)
    requires IsBlock(c.cells, b) && b.owner != OnList && o != OnList
    requires d.zone == ZoneOf(b.head) && DescOk(d, b.(owner := o))
    ensures 0 <= b.head < |c.pages|
    ensures CoreOk(Relabelled(c, b, o, d), if o == InHand then b.head else -1)
    ensures IsBlock(Relabelled(c, b, o, d).cells, b.(owner := o))
  {
    RelabelPartition(c.cells, b, o);
    RelabelOnList(c.cells, b, o);
    RelabelDescs(c.pages, c.cells, b, o, d);
    var cells' := Paint(c.cells, b.(owner := o));
    SameLists(c.lists, c.cells, cells');
    forall p | HeldAt(cells', p) ensures o == InHand && cells'[p].head == b.head {
      assert HeldAt(c.cells, p) || In(p, b);
      if !In(p, b) { SameHead(c.cells, b, p); }
    }
  }

  // The head of a free list is taken in hand.
  ghost function Taken(c: Core, i: int, b: Block): Core
    requires 0 <= i < |c.lists|
  {
    Core(c.pages, c.lists[i := RemoveItem(c.lists[i], b.head)], Paint(c.cells, b))
  }

  lemma TakeKeeps(c: Core, z: int, k: int)
    requires CoreOk(c, -1) && 0 <= z < ZONES && 0 <= k < MAX_ORDER && c.lists[z * MAX_ORDER + k] != []
    ensures var h := c.lists[z * MAX_ORDER + k][0];
            && IsBlock(c.cells, Block(h, k, OnList)) && ZoneOf(h) == z
            && CoreOk(Taken(c, z * MAX_ORDER + k, Block(h, k, InHand)), h)
            && IsBlock(Paint(c.cells, Block(h, k, InHand)), Block(h, k, InHand))
  {
    var i := z * MAX_ORDER + k;
    var h := c.lists[i][0];
    assert ListOk(c.lists[i], c.cells, i);
    assert OnListAt(c.cells, h, i);
    assert BlockOk(c.cells[h]);
    SameIndex(z, k, ZoneOf(h), c.cells[h].order);
    var b := Block(h, k, OnList);
    RelabelPartition(c.cells, b, InHand);
    RelabelOnList(c.cells, b, InHand);
    assert DescAt(c.pages, c.cells, h);
    RelabelDescs(c.pages, c.cells, b, InHand, c.pages[h]);
    assert c.pages[h := c.pages[h]] == c.pages;
    var cells' := Paint(c.cells, b.(owner := InHand));
    DropLists(c.lists, c.cells, cells', h, i);
    forall p | HeldAt(cells', p) ensures cells'[p].head == h { assert HeldAt(c.cells, p) || In(p, b); }
  }

  lemma SameIndex(z: int, k: int, z': int, k': int)
    requires 0 <= k < MAX_ORDER && 0 <= k' < MAX_ORDER && z * MAX_ORDER + k == z' * MAX_ORDER + k'
    ensures z == z' && k == k'
  {
  }

  // The block in hand joins the free list of its zone and order.
  ghost function Put(c: Core, b: Block): Core
    requires 0 <= b.head < |c.pages| && 0 <= ListIndex(b) < |c.lists|
  {
    Core(c.pages[b.head := Desc({Free}, 0, b.order, ZoneOf(b.head))],
         c.lists[ListIndex(b) := [b.head] + c.lists[ListIndex(b)]], Paint(c.cells, b.(owner := OnList)))
  }

  lemma PutKeeps(c: Core, b: Block)
    requires CoreOk(c, b.head) && IsBlock(c.cells, b) && b.owner == InHand
    ensures BlockOk(b) && 0 <= b.head < |c.pages| && CoreOk(Put(c, b), -1)
  {
    assert BlockOk(c.cells[b.head]);
    RelabelPartition(c.cells, b, OnList);
    RelabelOnList(c.cells, b, OnList);
    RelabelDescs(c.pages, c.cells, b, OnList, Desc({Free}, 0, b.order, ZoneOf(b.head)));
    var cells' := Paint(c.cells, b.(owner := OnList));
    PushLists(c.lists, c.cells, cells', b.head, ListIndex(b));
    forall p | p in cells' ensures !HeldAt(cells', p) {
      if HeldAt(c.cells, p) { SameHead(c.cells, b, p); }
    }
  }

  // The block in hand is split; its upper half goes to a free list.
  ghost function Split(c: Core, b: Block): Core
    requires b.order >= 1 && 0 <= Upper(b, OnList).head < |c.pages| && 0 <= ListIndex(Upper(b, OnList)) < |c.lists|
  {
    var u := Upper(b, OnList);
    Core(c.pages[u.head := Desc({Free}, 0, u.order, ZoneOf(b.head))],
         c.lists[ListIndex(u) := [u.head] + c.lists[ListIndex(u)]], SplitCells(c.cells, b))
  }

  lemma SplitKeeps(c: Core, b: Block)
    requires CoreOk(c, b.head) && IsBlock(c.cells, b) && b.owner == InHand && b.order >= 1
    ensures BlockOk(b) && 0 <= Upper(b, OnList).head < |c.pages| && 0 <= ListIndex(Upper(b, OnList)) < |c.lists|
    ensures CoreOk(Split(c, b), b.head) && IsBlock(Split(c, b).cells, Lower(b, InHand))
  {
    var u := Upper(b, OnList);
    assert BlockOk(c.cells[b.head]);
    SplitShape(b);
    Inside(c.cells, b, u.head);
    SplitPartition(c.cells, b);
    SplitOnList(c.cells, b);
    SplitDescs(c.pages, c.cells, b, Desc({Free}, 0, u.order, ZoneOf(b.head)));
    PushLists(c.lists, c.cells, SplitCells(c.cells, b), u.head, ListIndex(u));
    forall p | HeldAt(SplitCells(c.cells, b), p) ensures SplitCells(c.cells, b)[p].head == b.head { assert HeldAt(c.cells, p) || In(p, Lower(b, InHand)); }
  }

  // The block in hand absorbs its free buddy.
  ghost function Merge(c: Core, b: Block): Core
    requires b.order >= 0 && 0 <= ListIndex(b) < |c.lists|
  {
    Core(c.pages, c.lists[ListIndex(b) := RemoveItem(c.lists[ListIndex(b)], BuddyOf(b.head, b.order))], Paint(c.cells, Merged(b)))
  }

  lemma MergeKeeps(c: Core, b: Block)
    requires CoreOk(c, b.head) && IsBlock(c.cells, b) && b.owner == InHand && b.order + 1 < MAX_ORDER
    requires IsBlock(c.cells, Buddy(b, OnList)) && ZoneOf(BuddyOf(b.head, b.order)) == ZoneOf(b.head)
    ensures BlockOk(b) && CoreOk(Merge(c, b), Merged(b).head) && IsBlock(Merge(c, b).cells, Merged(b))
    ensures Joined(b, Buddy(b, OnList), Merged(b))
  {
    var f, m := Buddy(b, OnList), Merged(b);
    assert BlockOk(c.cells[b.head]) && BlockOk(c.cells[f.head]);
    MergeShape(b);
    MergePartition(c.cells, b);
    MergeOnList(c.cells, b, f, m);
    MergeDescs(c.pages, c.cells, m);
    DropLists(c.lists, c.cells, Paint(c.cells, m), f.head, ListIndex(f));
    forall p | HeldAt(Paint(c.cells, m), p) ensures Paint(c.cells, m)[p].head == m.head {
      if !In(p, m) {
        assert HeldAt(c.cells, p);
        SameHead(c.cells, b, p);
        InEither(b, f, m, p);
      }
    }
  }

  // ---- Maximal coalescing --------------------------------------------------------------------

  /** A free block of order k in zone z whose buddy is free as well. */
  ghost predicate FreePair(cells: Cells, h: int, k: int, z: int)
    requires k >= 0
  {
    OnListAt(cells, h, z * MAX_ORDER + k) && OnListAt(cells, BuddyOf(h, k), z * MAX_ORDER + k)
  }

  ghost predicate Coalesced(cells: Cells) {
    forall h, k, z :: 0 <= k < MAX_ORDER - 1 ==> !FreePair(cells, h, k, z)
  }

  lemma ShrinkCoalesced(cells: Cells, cells': Cells)
    requires Coalesced(cells) && forall h, j :: OnListAt(cells', h, j) ==> OnListAt(cells, h, j)
    ensures Coalesced(cells')
  {
    forall h, k, z | 0 <= k < MAX_ORDER - 1 ensures !FreePair(cells', h, k, z) { assert !FreePair(cells, h, k, z); }
  }

  lemma GrowCoalesced(cells: Cells, cells': Cells, b: Block)
    requires Partition(cells) && Coalesced(cells) && BlockOk(b) && ListedMore(cells, cells', b.head, ListIndex(b))
    requires b.order + 1 < MAX_ORDER ==> !OnListAt(cells, BuddyOf(b.head, b.order), ListIndex(b))
    ensures Coalesced(cells')
  {
    forall h, k, z | 0 <= k < MAX_ORDER - 1 ensures !FreePair(cells', h, k, z) {
      assert !FreePair(cells, h, k, z);
      if z * MAX_ORDER + k == ListIndex(b) {
        SameIndex(z, k, ZoneOf(b.head), b.order);
        BuddyBack(b);
        if OnListAt(cells, h, ListIndex(b)) { BuddyTwice(cells, b, h); }
      }
    }
  }

  lemma BuddyBack(b: Block)
    requires BlockOk(b)
    ensures BuddyOf(b.head, b.order) != b.head && BuddyOf(BuddyOf(b.head, b.order), b.order) == b.head
  {
    Joins(b.head, b.order);
  }

  lemma BuddyTwice(cells: Cells, b: Block, h: int)
    requires Partition(cells) && OnListAt(cells, h, ListIndex(b)) && BlockOk(b)
    ensures cells[h].order == b.order && BuddyOf(BuddyOf(h, b.order), b.order) == h
  {
    assert BlockOk(cells[h]);
    SameIndex(ZoneOf(h), cells[h].order, ZoneOf(b.head), b.order);
    BuddyBack(cells[h]);
  }

  lemma SplitCoalesced(cells: Cells, b: Block)
    requires Partition(cells) && Coalesced(cells) && IsBlock(cells, b) && b.owner == InHand && b.order >= 1
    ensures Coalesced(SplitCells(cells, b))
  {
    assert BlockOk(cells[b.head]);
    SplitShape(b);
    SplitOnList(cells, b);
    GrowCoalesced(cells, SplitCells(cells, b), Upper(b, OnList));
  }

  // ---- Counting ------------------------------------------------------------------------------

  ghost function FreeSet(cells: Cells, z: int): set<int> {
    set q | q in cells && cells[q].owner == OnList && ZoneOf(q) == z
  }

  ghost function Range(lo: int, n: nat): (r: set<int>)
    ensures |r| == n && forall q :: q in r <==> lo <= q < lo + n
  {
    if n == 0 then {} else Range(lo, n - 1) + {lo + n - 1}
  }

  ghost function Frames(b: Block): set<int>
    requires b.order >= 0
  {
    set q | b.head <= q < b.head + Pow2(b.order) && In(q, b)
  }

  lemma FramesSize(b: Block)
    requires b.order >= 0
    ensures |Frames(b)| == Pow2(b.order)
  {
    assert Frames(b) == Range(b.head, Pow2(b.order));
  }

  ghost predicate MovedAt(was: Cells, cells: Cells, b: Block, q: int) {
    && (In(q, b) ==> q in was && was[q].owner == OnList)
    && (q in was <==> q in cells)
    && (q in was && was[q].owner != OnList ==> cells[q] == was[q])
    && (q in was && was[q].owner == OnList ==> (cells[q].owner == OnList <==> !In(q, b)))
  }

  /** `cells` differs from `was` in free frames only, and the block `b` is what left the free frames. */
  ghost predicate TookOut(was: Cells, cells: Cells, b: Block) {
    forall q {:trigger MovedAt(was, cells, b, q)} :: MovedAt(was, cells, b, q)
  }

  lemma TookOutCount(was: Cells, cells: Cells, b: Block, z: int)
    requires TookOut(was, cells, b) && BlockOk(b)
    ensures |FreeSet(cells, z)| == |FreeSet(was, z)| - if z == ZoneOf(b.head) then Pow2(b.order) else 0
  {
    var r := if z == ZoneOf(b.head) then Frames(b) else {};
    FramesSize(b);
    forall q ensures q in FreeSet(cells, z) <==> q in FreeSet(was, z) && q !in r { assert MovedAt(was, cells, b, q); }
    forall q | q in r ensures q in FreeSet(was, z) { assert MovedAt(was, cells, b, q); }
    assert FreeSet(cells, z) == FreeSet(was, z) - r;
  }

  lemma TakeTook(cells: Cells, b: Block)
    requires Disjoint(cells) && IsBlock(cells, b) && b.owner == OnList
    ensures TookOut(cells, Paint(cells, b.(owner := InHand)), b.(owner := InHand))
  {
    forall q ensures MovedAt(cells, Paint(cells, b.(owner := InHand)), b.(owner := InHand), q) {
      if In(q, b) { Inside(cells, b, q); }
    }
  }

  lemma SplitTook(was: Cells, cells: Cells, b: Block)
    requires TookOut(was, cells, b) && Disjoint(cells) && IsBlock(cells, b) && b.owner == InHand && b.order >= 1
    ensures TookOut(was, SplitCells(cells, b), Lower(b, InHand))
  {
    forall q ensures MovedAt(was, SplitCells(cells, b), Lower(b, InHand), q) {
      assert MovedAt(was, cells, b, q);
      InHalf(b, q);
    }
  }

  lemma GiveTook(was: Cells, cells: Cells, b: Block)
    requires TookOut(was, cells, b) && b.owner == InHand
    ensures TookOut(was, Paint(cells, b.(owner := Caller)), b.(owner := Caller))
  {
    forall q ensures MovedAt(was, Paint(cells, b.(owner := Caller)), b.(owner := Caller), q) { assert MovedAt(was, cells, b, q); }
  }

  // ---- The kernel's data ---------------------------------------------------------------------

  ghost predicate CountsOk(cells: Cells, freePages: seq<int>) {
    |freePages| == ZONES && forall z :: 0 <= z < ZONES ==> freePages[z] == |FreeSet(cells, z)|
  }

  /** The free lists from index `lo` up to `hi` are empty: no free block of those orders. */
  ghost predicate NoFree(cells: Cells, lo: int, hi: int) {
    forall h, j :: lo <= j < hi ==> !OnListAt(cells, h, j)
  }

  /** A zone has no free block of an order or above. */
  ghost predicate NoneIn(cells: Cells, z: int, order: int) { NoFree(cells, z * MAX_ORDER + order, (z + 1) * MAX_ORDER) }

  /** The first block of the smallest order that will do and is there. */
  ghost predicate FromSmallest(lists: seq<seq<int>>, z: int, order: int, page: int) {
    exists k :: order <= k < MAX_ORDER && Smallest(lists, z, order, k) && lists[z * MAX_ORDER + k][0] == page
  }

  predicate Smallest(lists: seq<seq<int>>, z: int, order: int, k: int) {
    && 0 <= z < ZONES && 0 <= order <= k < MAX_ORDER && |lists| == ZONES * MAX_ORDER && lists[z * MAX_ORDER + k] != []
    && Bare(lists, z * MAX_ORDER + order, z * MAX_ORDER + k)
  }

  predicate Bare(lists: seq<seq<int>>, lo: int, hi: int)
    requires 0 <= lo && hi <= |lists|
  {
    forall i :: lo <= i < hi ==> lists[i] == []
  }

  // A zone without blocks is one with bare lists.
  lemma BareIff(lists: seq<seq<int>>, cells: Cells, z: int, order: int)
    requires ListsOk(lists, cells) && 0 <= z < ZONES && 0 <= order < MAX_ORDER
    ensures NoneIn(cells, z, order) <==> Bare(lists, z * MAX_ORDER + order, (z + 1) * MAX_ORDER)
  {
    var lo, hi := z * MAX_ORDER + order, (z + 1) * MAX_ORDER;
    if i :| lo <= i < hi && lists[i] != [] {
      assert ListOk(lists[i], cells, i);
      assert OnListAt(cells, lists[i][0], i);
    }
    if Bare(lists, lo, hi) {
      forall h, i | lo <= i < hi ensures !OnListAt(cells, h, i) {
        assert ListOk(lists[i], cells, i);
        assert h !in lists[i];
      }
    }
  }

  ghost predicate KeptAt(was: Cells, pages: seq<Desc>, pages': seq<Desc>, q: int) {
    0 <= q < |pages| == |pages'| && !(q in was && was[q].owner == OnList) ==> pages'[q] == pages[q]
  }

  /** Descriptors of frames that were not free are as before. */
  ghost predicate DescsKept(was: Cells, pages: seq<Desc>, pages': seq<Desc>) {
    |pages'| == |pages| && forall q {:trigger KeptAt(was, pages, pages', q)} :: KeptAt(was, pages, pages', q)
  }

  /** Everything known about a zone while a block taken from it is in hand. */
  ghost predicate Holding(was: Core, c: Core, b: Block) {
    && CoreOk(c, b.head) && IsBlock(c.cells, b) && b.owner == InHand
    && TookOut(was.cells, c.cells, b) && DescsKept(was.cells, was.pages, c.pages)
    && (Coalesced(was.cells) ==> Coalesced(c.cells))
  }

  lemma TakeHolds(c: Core, z: int, k: int)
    requires CoreOk(c, -1) && 0 <= z < ZONES && 0 <= k < MAX_ORDER && c.lists[z * MAX_ORDER + k] != []
    ensures var h := c.lists[z * MAX_ORDER + k][0];
            ZoneOf(h) == z && Holding(c, Taken(c, z * MAX_ORDER + k, Block(h, k, InHand)), Block(h, k, InHand))
  {
    TakeKeeps(c, z, k);
    var b := Block(c.lists[z * MAX_ORDER + k][0], k, OnList);
    TakeTook(c.cells, b);
    RelabelOnList(c.cells, b, InHand);
    if Coalesced(c.cells) { ShrinkCoalesced(c.cells, Paint(c.cells, b.(owner := InHand))); }
  }

  lemma SplitHolds(was: Core, c: Core, b: Block)
    requires Holding(was, c, b) && b.order >= 1
    ensures BlockOk(b) && 0 <= Upper(b, OnList).head < |c.pages| && 0 <= ListIndex(Upper(b, OnList)) < |c.lists|
    ensures ZoneOf(Upper(b, OnList).head) == ZoneOf(b.head)
    ensures Holding(was, Split(c, b), Lower(b, InHand))
  {
    SplitKeeps(c, b);
    SplitShape(b);
    SplitTook(was.cells, c.cells, b);
    var u := Upper(b, OnList).head;
    if Coalesced(c.cells) { SplitCoalesced(c.cells, b); }
    forall q ensures KeptAt(was.cells, was.pages, Split(c, b).pages, q) {
      assert KeptAt(was.cells, was.pages, c.pages, q);
      if q == u { assert MovedAt(was.cells, c.cells, b, u); }
    }
  }

  /** What an allocation from one zone hands out. */
  ghost predicate HandedOut(was: Core, c: Core, page: int, order: int, d: Desc) {
    && CoreOk(c, -1) && IsBlock(c.cells, Block(page, order, Caller)) && TookOut(was.cells, c.cells, Block(page, order, Caller))
    && DescsKept(was.cells, was.pages, c.pages) && 0 <= page < |c.pages| && c.pages[page] == d
    && (Coalesced(was.cells) ==> Coalesced(c.cells))
  }

  lemma GiveHandsOut(was: Core, c: Core, b: Block, d: Desc)
    requires Holding(was, c, b) && d.zone == ZoneOf(b.head) && d.refs >= 1 && d.order == b.order
    ensures 0 <= b.head < |c.pages| && BlockOk(b)
    ensures HandedOut(was, Relabelled(c, b, Caller, d), b.head, b.order, d)
  {
    RelabelKeeps(c, b, Caller, d, b.head);
    assert BlockOk(c.cells[b.head]);
    GiveTook(was.cells, c.cells, b);
    RelabelOnList(c.cells, b, Caller);
    if Coalesced(c.cells) { ShrinkCoalesced(c.cells, Paint(c.cells, b.(owner := Caller))); }
    forall q ensures KeptAt(was.cells, was.pages, Relabelled(c, b, Caller, d).pages, q) {
      assert KeptAt(was.cells, was.pages, c.pages, q);
      if q == b.head { assert MovedAt(was.cells, c.cells, b, q); }
    }
  }

  lemma TookOutCounts(was: Cells, cells: Cells, b: Block, freePages: seq<int>)
    requires TookOut(was, cells, b) && BlockOk(b) && |freePages| == ZONES
    ensures var z := ZoneOf(b.head);
            && (CountsOk(was, freePages) ==> CountsOk(cells, freePages[z := freePages[z] - Pow2(b.order)]))
            && (CountsOk(cells, freePages) ==> CountsOk(was, freePages[z := freePages[z] + Pow2(b.order)]))
  {
    forall z ensures |FreeSet(cells, z)| == |FreeSet(was, z)| - if z == ZoneOf(b.head) then Pow2(b.order) else 0 {
      TookOutCount(was, cells, b, z);
    }
  }

  // ---- Giving back ---------------------------------------------------------------------------

  ghost predicate GrownAt(was: Cells, cells: Cells, b0: Block, b: Block, q: int) {
    && (q in was <==> q in cells)
    && (In(q, b0) ==> In(q, b))
    && (In(q, b) ==> q in was && (In(q, b0) || was[q].owner == OnList))
    && (q in was && !In(q, b) ==> cells[q] == was[q])
  }

  /** The block in hand has grown from `b0` to `b` by absorbing free blocks; nothing else has changed. */
  ghost predicate Returning(was: Core, c: Core, b0: Block, b: Block) {
    && IsBlock(was.cells, b0) && b0.owner == InHand && CoreOk(c, b.head) && IsBlock(c.cells, b) && b.owner == InHand
    && c.pages == was.pages
    && forall q {:trigger GrownAt(was.cells, c.cells, b0, b, q)} :: GrownAt(was.cells, c.cells, b0, b, q)
  }

  /** The frames of `b` are free again, and this is the only difference to before. */
  ghost predicate GivenBack(was: Core, c: Core, b: Block) {
    && CoreOk(c, -1) && TookOut(c.cells, was.cells, b) && DescsKept(c.cells, was.pages, c.pages)
    && (Coalesced(was.cells) ==> Coalesced(c.cells))
  }

  /** The kernel's test on the descriptor of a block's buddy. */
  predicate Passes(pages: seq<Desc>, b: Block)
    requires b.order >= 0 && 0 <= b.head < |pages|
  {
    var x := BuddyOf(b.head, b.order);
    0 <= x < |pages| && Free in pages[x].flags && pages[x].order == b.order && pages[x].zone == pages[b.head].zone && pages[x].refs == 0
  }

  /** The test holds exactly when the buddy is a free block of the same order and zone. */
  lemma MergeTest(c: Core, b: Block, hand: int)
    requires CoreOk(c, hand) && IsBlock(c.cells, b) && (hand == -1 || hand == b.head)
    ensures var x := BuddyOf(b.head, b.order);
            && 0 <= x && 0 <= b.head < |c.pages|
            && (Passes(c.pages, b) <==> IsBlock(c.cells, Buddy(b, OnList)) && ZoneOf(x) == ZoneOf(b.head))
            && (IsBlock(c.cells, Buddy(b, OnList)) && ZoneOf(x) == ZoneOf(b.head) <==> OnListAt(c.cells, x, ListIndex(b)))
  {
    var x := BuddyOf(b.head, b.order);
    assert BlockOk(c.cells[b.head]) && DescAt(c.pages, c.cells, b.head);
    BuddyBack(b);
    Joins(b.head, b.order);
    if x in c.cells {
      BuddyIsHead(c.cells, b);
      assert DescAt(c.pages, c.cells, x) && BlockOk(c.cells[x]);
      assert !HeldAt(c.cells, x);
      if OnListAt(c.cells, x, ListIndex(b)) { SameIndex(ZoneOf(x), c.cells[x].order, ZoneOf(b.head), b.order); }
    } else if x < |c.pages| {
      assert DescAt(c.pages, c.cells, x);
    }
  }

  lemma StartReturning(c: Core, b: Block)
    requires CoreOk(c, b.head) && IsBlock(c.cells, b) && b.owner == InHand
    ensures Returning(c, c, b, b)
  {
    forall q ensures GrownAt(c.cells, c.cells, b, b, q) {
      if In(q, b) { Inside(c.cells, b, q); }
    }
  }

  lemma MergeReturns(was: Core, c: Core, b0: Block, b: Block)
    requires Returning(was, c, b0, b) && b.order + 1 < MAX_ORDER
    requires IsBlock(c.cells, Buddy(b, OnList)) && ZoneOf(BuddyOf(b.head, b.order)) == ZoneOf(b.head)
    ensures 0 <= ListIndex(b) < |c.lists| && Returning(was, Merge(c, b), b0, Merged(b))
    ensures Coalesced(c.cells) ==> Coalesced(Merge(c, b).cells)
    ensures ZoneOf(Merged(b).head) == ZoneOf(b.head)
  {
    MergeKeeps(c, b);
    var f, m := Buddy(b, OnList), Merged(b);
    forall q ensures GrownAt(was.cells, Paint(c.cells, m), b0, m, q) {
      assert GrownAt(was.cells, c.cells, b0, b, q);
      InEither(b, f, m, q);
      if In(q, f) { Inside(c.cells, f, q); }
    }
    MergeOnList(c.cells, b, f, m);
    if Coalesced(c.cells) { ShrinkCoalesced(c.cells, Paint(c.cells, m)); }
  }

  lemma PutReturns(was: Core, c: Core, b0: Block, b: Block)
    requires Returning(was, c, b0, b)
    requires b.order + 1 < MAX_ORDER ==> !OnListAt(c.cells, BuddyOf(b.head, b.order), ListIndex(b))
    requires Coalesced(was.cells) ==> Coalesced(c.cells)
    requires Disjoint(was.cells)
    ensures 0 <= b.head < |c.pages| && 0 <= ListIndex(b) < |c.lists| && GivenBack(was, Put(c, b), b0)
  {
    PutKeeps(c, b);
    var c' := Put(c, b);
    forall q ensures MovedAt(c'.cells, was.cells, b0, q) {
      assert GrownAt(was.cells, c.cells, b0, b, q);
      if In(q, b0) { Inside(was.cells, b0, q); }
    }
    forall q ensures KeptAt(c'.cells, was.pages, c'.pages, q) { }
    RelabelOnList(c.cells, b, OnList);
    if Coalesced(c.cells) { GrowCoalesced(c.cells, c'.cells, b); }
  }

  // ---- Per-CPU stacks ------------------------------------------------------------------------

  ghost predicate OnCpuAt(cells: Cells, p: int, c: int) { p in cells && cells[p] == Block(p, 0, OnCpu(c)) }

  ghost predicate HolderOk(cells: Cells, list: seq<int>, c: int) {
    NoDup(list) && forall p :: p in list <==> OnCpuAt(cells, p, c)
  }

  /** Above index 14 a stack holds frames of the normal zone only. */
  predicate Deep(stack: seq<int>) { |stack| <= STACK && forall i :: BATCH - 1 <= i < |stack| ==> ZoneOf(stack[i]) == NORMAL }

  ghost predicate StackOk(cells: Cells, stacks: seq<seq<int>>, c: int)
    requires 0 <= c < |stacks|
  {
    HolderOk(cells, stacks[c], c) && Deep(stacks[c])
  }

  ghost predicate CpuAt(cells: Cells, p: int) { p in cells && cells[p].owner.OnCpu? }

  /** Every CPU's stack, and the local batch array of the running call, which counts as CPU -1. */
  ghost predicate StacksOk(cells: Cells, stacks: seq<seq<int>>, batch: seq<int>) {
    && |stacks| == CPUS && (forall c {:trigger StackOk(cells, stacks, c)} :: 0 <= c < CPUS ==> StackOk(cells, stacks, c))
    && HolderOk(cells, batch, -1)
    && forall p {:trigger CpuAt(cells, p)} :: CpuAt(cells, p) ==> cells[p].head == p && cells[p].order == 0 && -1 <= cells[p].owner.cpu < CPUS
  }

  lemma SameStacks(was: Cells, cells: Cells, stacks: seq<seq<int>>, batch: seq<int>)
    requires StacksOk(was, stacks, batch)
    requires forall p :: CpuAt(cells, p) || CpuAt(was, p) ==> p in was && p in cells && cells[p] == was[p]
    ensures StacksOk(cells, stacks, batch)
  {
    forall p, c ensures OnCpuAt(cells, p, c) <==> OnCpuAt(was, p, c) { }
    forall c | 0 <= c < CPUS ensures StackOk(cells, stacks, c) { assert StackOk(was, stacks, c); }
    forall p | CpuAt(cells, p) ensures cells[p].head == p && cells[p].order == 0 && -1 <= cells[p].owner.cpu < CPUS { assert CpuAt(was, p); }
  }

  lemma TookStacks(was: Cells, cells: Cells, b: Block, stacks: seq<seq<int>>, batch: seq<int>)
    requires TookOut(was, cells, b) && Disjoint(cells) && IsBlock(cells, b) && !b.owner.OnCpu? && StacksOk(was, stacks, batch)
    ensures StacksOk(cells, stacks, batch)
  {
    forall p | CpuAt(cells, p) || CpuAt(was, p) ensures p in was && p in cells && cells[p] == was[p] {
      assert MovedAt(was, cells, b, p);
      if In(p, b) { Inside(cells, b, p); }
    }
    SameStacks(was, cells, stacks, batch);
  }

  lemma GivenStacks(was: Cells, cells: Cells, b: Block, stacks: seq<seq<int>>, batch: seq<int>)
    requires TookOut(cells, was, b) && Disjoint(was) && IsBlock(was, b) && !b.owner.OnCpu? && StacksOk(was, stacks, batch)
    ensures StacksOk(cells, stacks, batch)
  {
    forall p | CpuAt(cells, p) || CpuAt(was, p) ensures p in was && p in cells && cells[p] == was[p] {
      assert MovedAt(cells, was, b, p);
      if In(p, b) { Inside(was, b, p); }
    }
    SameStacks(was, cells, stacks, batch);
  }

  ghost predicate Moves(list: seq<int>, list': seq<int>, p: int, here: bool) {
    NoDup(list') && forall q :: q in list' <==> (q in list && q != p) || (q == p && here)
  }

  /** One frame changes hands: the stacks and the batch are adjusted to match. */
  lemma MoveFrame(cells: Cells, p: int, o: Owner, o': Owner, stacks: seq<seq<int>>, batch: seq<int>, stacks': seq<seq<int>>, batch': seq<int>)
    requires StacksOk(cells, stacks, batch) && IsBlock(cells, Block(p, 0, o)) && |stacks'| == CPUS
    requires o'.OnCpu? ==> -1 <= o'.cpu < CPUS
    requires forall c :: 0 <= c < CPUS ==> Moves(stacks[c], stacks'[c], p, o' == OnCpu(c)) && Deep(stacks'[c])
    requires Moves(batch, batch', p, o' == OnCpu(-1))
    ensures StacksOk(Paint(cells, Block(p, 0, o')), stacks', batch')
  {
    var cells' := Paint(cells, Block(p, 0, o'));
    forall q ensures In(q, Block(p, 0, o')) <==> q == p { }
    forall c | 0 <= c < CPUS ensures StackOk(cells', stacks', c) {
      assert StackOk(cells, stacks, c);
      forall q ensures q in stacks'[c] <==> OnCpuAt(cells', q, c) { }
    }
    forall q ensures q in batch' <==> OnCpuAt(cells', q, -1) { }
    forall q | CpuAt(cells', q) ensures cells'[q].head == q && cells'[q].order == 0 && -1 <= cells'[q].owner.cpu < CPUS {
      assert CpuAt(cells, q) || q == p;
    }
  }

  lemma UntouchedStack(cells: Cells, stacks: seq<seq<int>>, batch: seq<int>, p: int, o: Owner, c: int)
    requires StacksOk(cells, stacks, batch) && IsBlock(cells, Block(p, 0, o)) && 0 <= c < CPUS && o != OnCpu(c)
    ensures Moves(stacks[c], stacks[c], p, false) && Deep(stacks[c])
  {
    assert StackOk(cells, stacks, c);
    assert !OnCpuAt(cells, p, c);
  }

  // ---- Callers -------------------------------------------------------------------------------

  ghost predicate LiveAt(was: Core, c: Core, b: Block, q: int) {
    && (q in was.cells <==> q in c.cells)
    && (q in was.cells && was.cells[q].owner == Caller ==> c.cells[q] == was.cells[q])
    && (q in was.cells && was.cells[q].owner == Caller && 0 <= q < |was.pages| == |c.pages| ==> c.pages[q] == was.pages[q])
    && (In(q, b) ==> q in was.cells && was.cells[q].owner != Caller)
    && (q in c.cells && c.cells[q].owner == Caller && was.cells[q].owner != Caller ==> In(q, b))
  }

  /**
   The blocks that callers hold grow by exactly `b`, and the frames they held keep their blocks and
   descriptors; a block of negative order stands for no block.
   */
  ghost predicate LiveMore(was: Core, c: Core, b: Block) {
    |c.pages| == |was.pages| && forall q {:trigger LiveAt(was, c, b, q)} :: LiveAt(was, c, b, q)
  }

  const Nothing := Block(0, -1, Caller)

  lemma LiveTrans(a: Core, b: Core, c: Core, x: Block)
    requires LiveMore(a, b, Nothing) && LiveMore(b, c, x)
    ensures LiveMore(a, c, x)
  {
    forall q ensures LiveAt(a, c, x, q) { assert LiveAt(a, b, Nothing, q) && LiveAt(b, c, x, q); }
  }

  // An allocation from a zone whose result goes to the local batch leaves the callers' blocks alone.
  lemma TookLive(was: Core, c: Core, b: Block)
    requires TookOut(was.cells, c.cells, b) && DescsKept(was.cells, was.pages, c.pages)
    requires Disjoint(c.cells) && IsBlock(c.cells, b) && b.owner == Caller
    ensures LiveMore(was, c, b)
  {
    forall q ensures LiveAt(was, c, b, q) {
      assert MovedAt(was.cells, c.cells, b, q) && KeptAt(was.cells, was.pages, c.pages, q);
      if In(q, b) { Inside(c.cells, b, q); }
    }
  }
  lemma PopMoves(list: seq<int>)
    requires NoDup(list) && list != []
    ensures Moves(list, list[..|list| - 1], list[|list| - 1], false)
  {
    var n := |list| - 1;
    forall q ensures q in list[..n] <==> q in list && q != list[n] {
      if q in list && q != list[n] { var i :| 0 <= i < |list| && list[i] == q; assert list[..n][i] == q; }
    }
  }

  lemma FrontMoves(list: seq<int>)
    requires NoDup(list) && list != []
    ensures Moves(list, list[1..], list[0], false)
  {
    forall q ensures q in list[1..] <==> q in list && q != list[0] {
      if q in list && q != list[0] { var i :| 0 <= i < |list| && list[i] == q; assert list[1..][i - 1] == q; }
    }
  }

  lemma PushMoves(list: seq<int>, p: int)
    requires NoDup(list) && p !in list
    ensures Moves(list, list + [p], p, true)
  {
  }

  // ---- Whole states --------------------------------------------------------------------------

  /** The allocator's invariant while `batch` is in a local array of the running call. */
  ghost predicate Ok(c: Core, freePages: seq<int>, stacks: seq<seq<int>>, batch: seq<int>) {
    CoreOk(c, -1) && CountsOk(c.cells, freePages) && StacksOk(c.cells, stacks, batch)
  }

  predicate Idle(o: Owner) { o == Caller || o.OnCpu? }

  /** One frame goes from one idle owner to another. */
  ghost predicate MoveOk(c: Core, p: int, o: Owner, o': Owner, d: Desc) {
    && IsBlock(c.cells, Block(p, 0, o)) && Idle(o) && Idle(o') && (o'.OnCpu? ==> -1 <= o'.cpu < CPUS)
    && d.zone == ZoneOf(p) && DescOk(d, Block(p, 0, o'))
  }

  lemma MoveCore(c: Core, p: int, o: Owner, o': Owner, d: Desc, freePages: seq<int>)
    requires CoreOk(c, -1) && CountsOk(c.cells, freePages) && MoveOk(c, p, o, o', d)
    ensures 0 <= p < |c.pages|
    ensures var c' := Relabelled(c, Block(p, 0, o), o', d);
            && CoreOk(c', -1) && CountsOk(c'.cells, freePages) && IsBlock(c'.cells, Block(p, 0, o'))
            && (Coalesced(c.cells) ==> Coalesced(c'.cells))
  {
    RelabelKeeps(c, Block(p, 0, o), o', d, -1);
    RelabelOnList(c.cells, Block(p, 0, o), o');
    var c' := Relabelled(c, Block(p, 0, o), o', d);
    if Coalesced(c.cells) { ShrinkCoalesced(c.cells, c'.cells); }
    forall z ensures FreeSet(c'.cells, z) == FreeSet(c.cells, z) { }
  }

  lemma MoveLive(c: Core, p: int, o: Owner, o': Owner, d: Desc)
    requires IsBlock(c.cells, Block(p, 0, o)) && Idle(o) && Idle(o') && 0 <= p < |c.pages|
    ensures var c' := Relabelled(c, Block(p, 0, o), o', d);
            && (o != Caller && o' != Caller ==> LiveMore(c, c', Nothing))
            && (o != Caller && o' == Caller ==> LiveMore(c, c', Block(p, 0, Caller)))
            && (o == Caller && o' != Caller ==> LiveMore(c', c, Block(p, 0, Caller)))
  {
    var c' := Relabelled(c, Block(p, 0, o), o', d);
    forall q, w: Owner ensures In(q, Block(p, 0, w)) <==> q == p { }
    forall q | o != Caller && o' != Caller ensures LiveAt(c, c', Nothing, q) { }
    forall q | o != Caller && o' == Caller ensures LiveAt(c, c', Block(p, 0, Caller), q) { }
    forall q | o == Caller && o' != Caller ensures LiveAt(c', c, Block(p, 0, Caller), q) { }
  }

  // Caller or batch to the top of a stack.
  lemma PushStack(cells: Cells, p: int, o: Owner, stacks: seq<seq<int>>, batch: seq<int>, batch': seq<int>, cpu: int)
    requires StacksOk(cells, stacks, batch) && IsBlock(cells, Block(p, 0, o)) && 0 <= cpu < CPUS
    requires o == OnCpu(-1) && Moves(batch, batch', p, false)
    requires |stacks[cpu]| < STACK && (|stacks[cpu]| >= BATCH - 1 ==> ZoneOf(p) == NORMAL)
    ensures StacksOk(Paint(cells, Block(p, 0, OnCpu(cpu))), stacks[cpu := stacks[cpu] + [p]], batch')
  {
    var stacks' := stacks[cpu := stacks[cpu] + [p]];
    forall c | 0 <= c < CPUS ensures Moves(stacks[c], stacks'[c], p, OnCpu(cpu) == OnCpu(c)) && Deep(stacks'[c]) {
      UntouchedStack(cells, stacks, batch, p, o, c);
      assert StackOk(cells, stacks, c) && !OnCpuAt(cells, p, c);
      if c == cpu { PushMoves(stacks[c], p); }
    }
    MoveFrame(cells, p, o, OnCpu(cpu), stacks, batch, stacks', batch');
  }

  // The top of a stack to the caller or to the end of the batch.
  lemma PopStack(cells: Cells, o': Owner, stacks: seq<seq<int>>, batch: seq<int>, cpu: int)
    requires StacksOk(cells, stacks, batch) && 0 <= cpu < CPUS && stacks[cpu] != [] && (o' == Caller || o' == OnCpu(-1))
    ensures var n := |stacks[cpu]| - 1;
            var p := stacks[cpu][n];
            && IsBlock(cells, Block(p, 0, OnCpu(cpu)))
            && StacksOk(Paint(cells, Block(p, 0, o')), stacks[cpu := stacks[cpu][..n]], if o' == Caller then batch else batch + [p])
  {
    var n := |stacks[cpu]| - 1;
    var p := stacks[cpu][n];
    var stacks' := stacks[cpu := stacks[cpu][..n]];
    assert StackOk(cells, stacks, cpu);
    assert OnCpuAt(cells, p, cpu);
    forall c | 0 <= c < CPUS ensures Moves(stacks[c], stacks'[c], p, o' == OnCpu(c)) && Deep(stacks'[c]) {
      if c == cpu { PopMoves(stacks[c]); } else { UntouchedStack(cells, stacks, batch, p, OnCpu(cpu), c); }
    }
    assert !OnCpuAt(cells, p, -1);
    if o' != Caller { PushMoves(batch, p); }
    MoveFrame(cells, p, OnCpu(cpu), o', stacks, batch, stacks', if o' == Caller then batch else batch + [p]);
  }

  // Caller to the end of the batch, or batch to caller.
  lemma BatchMove(cells: Cells, p: int, o: Owner, o': Owner, stacks: seq<seq<int>>, batch: seq<int>, batch': seq<int>)
    requires StacksOk(cells, stacks, batch) && IsBlock(cells, Block(p, 0, o))
    requires o == Caller || o == OnCpu(-1)
    requires o' == Caller || o' == OnCpu(-1)
    requires Moves(batch, batch', p, o' == OnCpu(-1))
    ensures StacksOk(Paint(cells, Block(p, 0, o')), stacks, batch')
  {
    forall c | 0 <= c < CPUS ensures Moves(stacks[c], stacks[c], p, o' == OnCpu(c)) && Deep(stacks[c]) {
      UntouchedStack(cells, stacks, batch, p, o, c);
    }
    MoveFrame(cells, p, o, o', stacks, batch, stacks, batch');
  }

  lemma LiveTrans2(a: Core, b: Core, c: Core, x: Block)
    requires LiveMore(a, b, x) && LiveMore(b, c, Nothing)
    ensures LiveMore(a, c, x)
  {
    forall q ensures LiveAt(a, c, x, q) { assert LiveAt(a, b, x, q) && LiveAt(b, c, Nothing, q); }
  }

  lemma LiveRefl(a: Core)
    ensures LiveMore(a, a, Nothing)
  {
    forall q ensures LiveAt(a, a, Nothing, q) { }
  }

  lemma LiveSize(was: Core, c: Core, b: Block)
    requires LiveMore(was, c, b)
    ensures |was.cells| == |c.cells|
  {
    forall q ensures q in was.cells.Keys <==> q in c.cells.Keys { assert LiveAt(was, c, b, q); }
    assert was.cells.Keys == c.cells.Keys;
  }

  /** The processor of a call; numbers without a stack of their own use the first. */
  function CpuOf(cpuId: int): (cpu: int)
    requires cpuId >= 0
    ensures 0 <= cpu < 64 && (cpuId < 64 ==> cpu == cpuId) && (cpuId >= 64 ==> cpu == 0)
  {
    if cpuId >= CPUS then 0 else cpuId
  }

  /** The zone that refills a stack: the normal one as long as it has anything. */
  function RefillZone(freePages: seq<int>): int { if |freePages| == 3 && freePages[2] > 0 then 2 else 1 }

  ghost predicate Refilled(cells: Cells, was: seq<seq<int>>, stacks: seq<seq<int>>, cpu: int, page: int, z: int)
    requires 0 <= cpu < |was| == |stacks|
  {
    && stacks == was[cpu := stacks[cpu]] && |stacks[cpu]| < 16 && (|stacks[cpu]| < 15 ==> NoneIn(cells, z, 0))
    && ZoneOf(page) == z && forall i :: 0 <= i < |stacks[cpu]| ==> ZoneOf(stacks[cpu][i]) == z
  }

  /** A block stays below 16 MiB, or below 4 GiB, if the request says so. */
  predicate Within(flags: set<Flag>, page: int, order: int)
    requires order >= 0
  {
    (Dma in flags ==> page + Pow2(order) <= 0x1000) && (Dma32 in flags ==> page + Pow2(order) <= 0x100000)
  }

  /** No zone that a request allows has a block: 0 is below 16 MiB, 1 below 4 GiB, 2 the rest. */
  ghost predicate Nowhere(cells: Cells, flags: set<Flag>, order: int) {
    && NoneIn(cells, 0, order)
    && (Dma !in flags ==> NoneIn(cells, 1, order))
    && (Dma !in flags && Dma32 !in flags ==> NoneIn(cells, 2, order))
  }

  lemma ZoneLimits(b: Block)
    requires BlockOk(b)
    ensures ZoneOf(b.head) == 0 ==> b.head + Pow2(b.order) <= 0x1000
    ensures ZoneOf(b.head) <= 1 ==> b.head + Pow2(b.order) <= 0x100000
  {
  }

  function TopZone(flags: set<Flag>): int { if Dma in flags then DMA else if Dma32 in flags then DMA32 else NORMAL }

  lemma GivenLive(was: Core, c: Core, b: Block)
    requires TookOut(c.cells, was.cells, b) && DescsKept(c.cells, was.pages, c.pages)
    requires Disjoint(was.cells) && IsBlock(was.cells, b) && b.owner == InHand
    ensures LiveMore(was, c, Nothing)
  {
    forall q ensures LiveAt(was, c, Nothing, q) {
      assert MovedAt(c.cells, was.cells, b, q) && KeptAt(c.cells, was.pages, c.pages, q);
      if In(q, b) { Inside(was.cells, b, q); }
    }
  }

  /** A block is taken in hand to be freed. */
  lemma HoldBlock(c: Core, b: Block, d: Desc, freePages: seq<int>)
    requires CoreOk(c, -1) && CountsOk(c.cells, freePages) && IsBlock(c.cells, b) && Idle(b.owner) && d.zone == ZoneOf(b.head)
    ensures 0 <= b.head < |c.pages|
    ensures var c' := Relabelled(c, b, InHand, d);
            && CoreOk(c', b.head) && IsBlock(c'.cells, b.(owner := InHand)) && CountsOk(c'.cells, freePages)
            && (Coalesced(c.cells) ==> Coalesced(c'.cells))
            && (b.owner == Caller ==> LiveMore(c', c, b))
            && (b.owner != Caller ==> LiveMore(c, c', Nothing))
  {
    RelabelKeeps(c, b, InHand, d, -1);
    RelabelOnList(c.cells, b, InHand);
    var c' := Relabelled(c, b, InHand, d);
    if Coalesced(c.cells) { ShrinkCoalesced(c.cells, c'.cells); }
    forall q | In(q, b) ensures q in c.cells && c.cells[q] == b { Inside(c.cells, b, q); }
    forall z ensures FreeSet(c'.cells, z) == FreeSet(c.cells, z) { }
    forall q | b.owner == Caller ensures LiveAt(c', c, b, q) { }
    forall q | b.owner != Caller ensures LiveAt(c, c', Nothing, q) { }
  }

  lemma HoldStacks(cells: Cells, b: Block, stacks: seq<seq<int>>, batch: seq<int>)
    requires StacksOk(cells, stacks, batch) && Disjoint(cells) && IsBlock(cells, b) && b.owner == Caller
    ensures StacksOk(Paint(cells, b.(owner := InHand)), stacks, batch)
  {
    var cells' := Paint(cells, b.(owner := InHand));
    forall p | CpuAt(cells', p) || CpuAt(cells, p) ensures p in cells && p in cells' && cells'[p] == cells[p] {
      if In(p, b) { Inside(cells, b, p); }
    }
    SameStacks(cells, cells', stacks, batch);
  }

  // The first frame of the batch is taken in hand.
  lemma BatchToHand(cells: Cells, stacks: seq<seq<int>>, batch: seq<int>)
    requires StacksOk(cells, stacks, batch) && batch != []
    ensures IsBlock(cells, Block(batch[0], 0, OnCpu(-1)))
    ensures StacksOk(Paint(cells, Block(batch[0], 0, InHand)), stacks, batch[1..])
  {
    var p := batch[0];
    assert OnCpuAt(cells, p, -1);
    FrontMoves(batch);
    forall c | 0 <= c < CPUS ensures Moves(stacks[c], stacks[c], p, false) && Deep(stacks[c]) {
      UntouchedStack(cells, stacks, batch, p, OnCpu(-1), c);
    }
    MoveFrame(cells, p, OnCpu(-1), InHand, stacks, batch, stacks, batch[1..]);
  }

  // ---- Boot-time ingestion -------------------------------------------------------------------

  ghost function AddCells(cells: Cells, b: Block): Cells
    requires b.order >= 0
  {
    map q | q in cells.Keys + Frames(b) :: if q in cells then cells[q] else b
  }

  lemma AddCell(cells: Cells, b: Block, q: int)
    requires b.order >= 0 && (In(q, b) ==> q !in cells)
    ensures q in AddCells(cells, b) <==> q in cells || In(q, b)
    ensures q in AddCells(cells, b) ==> AddCells(cells, b)[q] == if In(q, b) then b else cells[q]
  {
  }

  ghost predicate NewBlock(c: Core, b: Block) {
    BlockOk(b) && b.owner == OnList && b.head + Pow2(b.order) <= |c.pages| && forall q :: In(q, b) ==> q !in c.cells
  }

  ghost function Added(c: Core, b: Block): Core
    requires b.order >= 0 && 0 <= b.head < |c.pages| && 0 <= ListIndex(b) < |c.lists|
  {
    Core(c.pages[b.head := Desc({Free}, 0, b.order, ZoneOf(b.head))],
         c.lists[ListIndex(b) := [b.head] + c.lists[ListIndex(b)]], AddCells(c.cells, b))
  }

  lemma AddPartition(cells: Cells, b: Block)
    requires Partition(cells) && BlockOk(b) && forall q :: In(q, b) ==> q !in cells
    ensures Partition(AddCells(cells, b))
  {
    var cells' := AddCells(cells, b);
    forall p | p in cells' ensures CellOk(cells', p) && BlockOk(cells'[p]) {
      AddCell(cells, b, p);
      if p in cells { assert CellOk(cells, p) && BlockOk(cells[p]); }
      forall q | In(q, cells'[p]) ensures q in cells' && cells'[q] == cells'[p] { AddCell(cells, b, q); }
    }
  }

  lemma AddOnList(cells: Cells, b: Block)
    requires b.order >= 0 && b.owner == OnList && forall q :: In(q, b) ==> q !in cells
    ensures ListedMore(cells, AddCells(cells, b), b.head, ListIndex(b)) && !OnListAt(cells, b.head, ListIndex(b))
  {
    assert In(b.head, b);
    forall h, j ensures OnListAt(AddCells(cells, b), h, j) <==> OnListAt(cells, h, j) || (h == b.head && j == ListIndex(b)) {
      AddCell(cells, b, h);
    }
  }

  lemma AddDescs(pages: seq<Desc>, cells: Cells, b: Block)
    requires DescsOk(pages, cells) && b.order >= 0 && b.owner == OnList && 0 <= b.head && b.head + Pow2(b.order) <= |pages|
    requires forall q :: In(q, b) ==> q !in cells
    ensures DescsOk(pages[b.head := Desc({Free}, 0, b.order, ZoneOf(b.head))], AddCells(cells, b))
  {
    var pages', cells' := pages[b.head := Desc({Free}, 0, b.order, ZoneOf(b.head))], AddCells(cells, b);
    assert In(b.head, b);
    forall p | 0 <= p < |pages'| ensures DescAt(pages', cells', p) {
      assert DescAt(pages, cells, p);
      AddCell(cells, b, p);
    }
    forall p | p in cells' ensures 0 <= p < |pages'| { AddCell(cells, b, p); }
  }

  lemma AddKeeps(c: Core, b: Block)
    requires CoreOk(c, -1) && NewBlock(c, b)
    ensures 0 <= b.head < |c.pages| && 0 <= ListIndex(b) < |c.lists| && CoreOk(Added(c, b), -1)
  {
    AddPartition(c.cells, b);
    AddOnList(c.cells, b);
    AddDescs(c.pages, c.cells, b);
    PushLists(c.lists, c.cells, AddCells(c.cells, b), b.head, ListIndex(b));
    forall p ensures !HeldAt(AddCells(c.cells, b), p) { assert !HeldAt(c.cells, p); AddCell(c.cells, b, p); }
  }

  lemma AddFreeSet(cells: Cells, b: Block, z: int, r: set<int>)
    requires b.order >= 0 && b.owner == OnList
    requires forall q :: In(q, b) ==> q !in cells && (q in r <==> ZoneOf(q) == z)
    requires forall q :: q in r ==> In(q, b)
    ensures FreeSet(AddCells(cells, b), z) == FreeSet(cells, z) + r && FreeSet(cells, z) !! r
  {
    forall q ensures q in FreeSet(AddCells(cells, b), z) <==> q in FreeSet(cells, z) || q in r { AddCell(cells, b, q); }
  }

  lemma AddCount(cells: Cells, b: Block, z: int)
    requires b.order >= 0 && b.owner == OnList && forall q :: In(q, b) ==> q !in cells && ZoneOf(q) == ZoneOf(b.head)
    ensures |FreeSet(AddCells(cells, b), z)| == |FreeSet(cells, z)| + if z == ZoneOf(b.head) then Pow2(b.order) else 0
  {
    if z == ZoneOf(b.head) {
      FramesSize(b);
      AddFreeSet(cells, b, z, Frames(b));
    } else {
      AddFreeSet(cells, b, z, {});
    }
  }

  lemma AddCounts(cells: Cells, b: Block, freePages: seq<int>)
    requires b.order >= 0 && b.owner == OnList && forall q :: In(q, b) ==> q !in cells && ZoneOf(q) == ZoneOf(b.head)
    requires CountsOk(cells, freePages)
    ensures CountsOk(AddCells(cells, b), freePages[ZoneOf(b.head) := freePages[ZoneOf(b.head)] + Pow2(b.order)])
  {
    forall z { AddCount(cells, b, z); }
  }

  lemma InOneZone(b: Block)
    requires BlockOk(b)
    ensures forall q :: In(q, b) ==> ZoneOf(q) == ZoneOf(b.head)
  {
  }

  lemma AddSize(cells: Cells, b: Block)
    requires b.order >= 0 && forall q :: In(q, b) ==> q !in cells
    ensures |AddCells(cells, b)| == |cells| + Pow2(b.order)
  {
    FramesSize(b);
    assert AddCells(cells, b).Keys == cells.Keys + Frames(b);
  }

  lemma AddStacks(cells: Cells, b: Block, stacks: seq<seq<int>>)
    requires b.order >= 0 && b.owner == OnList && StacksOk(cells, stacks, []) && forall q :: In(q, b) ==> q !in cells
    ensures StacksOk(AddCells(cells, b), stacks, [])
  {
    forall q ensures CpuAt(AddCells(cells, b), q) <==> CpuAt(cells, q) { AddCell(cells, b, q); }
    SameStacks(cells, AddCells(cells, b), stacks, []);
  }

  /** New frames are on free lists, and old ones as before. */
  ghost predicate AllListed(was: Cells, cells: Cells) {
    && (forall q :: q in was ==> q in cells && cells[q] == was[q])
    && (forall q :: q in cells && q !in was ==> cells[q].owner == OnList)
  }

  /** The frames of a range were added, all free. */
  ghost predicate Ingested(was: Cells, cells: Cells, start: int, end: int) {
    AllListed(was, cells) && forall q :: q in cells <==> q in was || start <= q < end
  }

  /** The block ingested last, at `last`, could not have been larger. */
  ghost predicate Greedy(cells: Cells, start: int, last: int, cur: int, end: int) {
    start < cur ==>
      && last in cells && cells[last].head == last && cells[last].order >= 0 && last + Pow2(cells[last].order) == cur
      && var k := cells[last].order + 1; k < MAX_ORDER ==> !BlockOk(Block(last, k, OnList)) || last + Pow2(k) > end
  }

  lemma IngestedMore(was: Cells, mid: Cells, start: int, cur: int, b: Block)
    requires Ingested(was, mid, start, cur) && b.order >= 0 && b.head == cur && b.owner == OnList && start <= cur
    requires forall q :: In(q, b) ==> q !in mid
    ensures Ingested(was, AddCells(mid, b), start, cur + Pow2(b.order))
    ensures cur in AddCells(mid, b) && AddCells(mid, b)[cur] == b
  {
    forall q ensures q in AddCells(mid, b) <==> q in mid || In(q, b) { AddCell(mid, b, q); }
    forall q | q in AddCells(mid, b) ensures AddCells(mid, b)[q] == if In(q, b) then b else mid[q] { AddCell(mid, b, q); }
  }

  // No free buddy waits for the next block of a range that touches no other usable frame.
  lemma NoBuddy(was: Cells, cells: Cells, start: int, last: int, cur: int, end: int, b: Block)
    requires Partition(cells) && Ingested(was, cells, start, cur) && Greedy(cells, start, last, cur, end) && start <= cur < end
    requires (forall q :: start <= q < end ==> q !in was) && start - 1 !in was && end !in was
    requires BlockOk(b) && b.owner == OnList && b.head == cur && b.order + 1 < MAX_ORDER && cur + Pow2(b.order) <= end
    ensures !OnListAt(cells, BuddyOf(cur, b.order), ListIndex(b))
  {
    var x := BuddyOf(cur, b.order);
    Joins(cur, b.order);
    if OnListAt(cells, x, ListIndex(b)) {
      assert BlockOk(cells[x]) && CellOk(cells, x);
      SameIndex(ZoneOf(x), cells[x].order, ZoneOf(cur), b.order);
      if x < cur {
        assert In(cur - 1, cells[x]);
        assert CellOk(cells, last);
        assert In(cur - 1, cells[last]);
        MergeShape(b);
      }
    }
  }

  /** The frames from start up to end are new and touch no other usable frame. */
  ghost predicate Alone(was: Cells, start: int, end: int) {
    Coalesced(was) && (forall q :: start <= q < end ==> q !in was) && start - 1 !in was && end !in was
  }

  lemma IngestCoalesced(was: Cells, cells: Cells, start: int, last: int, cur: int, end: int, b: Block)
    requires Partition(cells) && Ingested(was, cells, start, cur) && Greedy(cells, start, last, cur, end) && start <= cur < end
    requires Alone(was, start, end) && Coalesced(cells)
    requires BlockOk(b) && b.owner == OnList && b.head == cur && cur + Pow2(b.order) <= end
    ensures Coalesced(AddCells(cells, b))
  {
    AddOnList(cells, b);
    if b.order + 1 < MAX_ORDER { NoBuddy(was, cells, start, last, cur, end, b); }
    GrowCoalesced(cells, AddCells(cells, b), b);
  }

  /** A range is ingested up to some frame. */
  ghost predicate Ingesting(was: Cells, cells: Cells, start: int, last: int, cur: int, end: int) {
    && (forall q :: start <= q < end ==> q !in was)
    && Ingested(was, cells, start, cur) && Greedy(cells, start, last, cur, end) && (Alone(was, start, end) ==> Coalesced(cells))
  }

  lemma IngestStep(was: Cells, cells: Cells, start: int, last: int, cur: int, end: int, b: Block)
    requires Partition(cells) && Ingesting(was, cells, start, last, cur, end) && start <= cur < end
    requires BlockOk(b) && b.owner == OnList && b.head == cur && cur + Pow2(b.order) <= end
    requires b.order + 1 < MAX_ORDER ==> !BlockOk(Block(cur, b.order + 1, OnList)) || cur + Pow2(b.order + 1) > end
    ensures forall q :: In(q, b) ==> q !in cells
    ensures Ingesting(was, AddCells(cells, b), start, cur, cur + Pow2(b.order), end)
  {
    if Alone(was, start, end) { IngestCoalesced(was, cells, start, last, cur, end, b); }
    IngestedMore(was, cells, start, cur, b);
  }

  // ---- Memory maps ---------------------------------------------------------------------------

  /** Frames from lo up to hi. */
  datatype Region = Region(lo: int, hi: int)

  predicate InRegion(q: int, r: Region) { r.lo <= q < r.hi }

  predicate Clear(r: Region, s: Region) { r.hi <= s.lo || s.hi <= r.lo }

  /** Usable regions do not overlap. */
  predicate RegionsDisjoint(regions: seq<Region>) {
    && (forall i :: 0 <= i < |regions| ==> regions[i].lo <= regions[i].hi)
    && (forall i, j :: 0 <= i < j < |regions| ==> Clear(regions[i], regions[j]))
  }

  predicate RegionsOk(regions: seq<Region>, total: int) {
    RegionsDisjoint(regions) && forall i :: 0 <= i < |regions| ==> 0 <= regions[i].lo && regions[i].hi <= total
  }

  /** No region begins where another one ends. */
  predicate Untouching(regions: seq<Region>) {
    forall i, j :: 0 <= i < |regions| && 0 <= j < |regions| && i != j ==> regions[i].hi != regions[j].lo
  }

  ghost predicate Usable(regions: seq<Region>, table: Region, q: int) {
    (exists i :: 0 <= i < |regions| && InRegion(q, regions[i])) && !InRegion(q, table)
  }

  lemma UsableMore(regions: seq<Region>, i: int, table: Region, q: int)
    requires 0 <= i < |regions|
    ensures Usable(regions[..i + 1], table, q) <==> Usable(regions[..i], table, q) || (InRegion(q, regions[i]) && !InRegion(q, table))
  {
    assert regions[..i + 1] == regions[..i] + [regions[i]];
    if Usable(regions[..i], table, q) {
      var j :| 0 <= j < i && InRegion(q, regions[..i][j]);
      assert InRegion(q, regions[..i + 1][j]);
    }
    if InRegion(q, regions[i]) { assert InRegion(q, regions[..i + 1][i]); }
  }

  /** The first regions of a memory map are ingested. */
  ghost predicate Loaded(cells: Cells, regions: seq<Region>, i: int, table: Region)
    requires 0 <= i <= |regions|
  {
    && AllListed(map[], cells) && (forall q :: q in cells <==> Usable(regions[..i], table, q))
    && (Untouching(regions) ==> Coalesced(cells))
  }

  lemma NoneLoaded(regions: seq<Region>, table: Region)
    ensures Loaded(map[], regions, 0, table)
  {
    forall h, k, z | 0 <= k < MAX_ORDER - 1 ensures !FreePair(map[], h, k, z) { }
  }

  // The next region is new and, if no regions touch, touches nothing.
  lemma NextRegion(cells: Cells, regions: seq<Region>, i: int, table: Region)
    requires 0 <= i < |regions| && RegionsDisjoint(regions) && Loaded(cells, regions, i, table)
    ensures forall q :: InRegion(q, regions[i]) ==> q !in cells
    ensures Untouching(regions) ==> regions[i].lo - 1 !in cells && regions[i].hi !in cells
  {
    var r := regions[i];
    forall q | InRegion(q, r) ensures q !in cells {
      forall j | 0 <= j < i ensures !InRegion(q, regions[..i][j]) { assert Clear(regions[j], r); }
    }
    if Untouching(regions) {
      forall j | 0 <= j < i ensures !InRegion(r.lo - 1, regions[..i][j]) && !InRegion(r.hi, regions[..i][j]) {
        assert Clear(regions[j], r) && r.hi != regions[j].lo && regions[j].hi != r.lo;
      }
    }
  }

  lemma RegionLoaded(was: Cells, cells: Cells, regions: seq<Region>, i: int, table: Region)
    requires 0 <= i < |regions| && Loaded(was, regions, i, table) && AllListed(was, cells)
    requires forall q :: q in cells <==> q in was || (InRegion(q, regions[i]) && !InRegion(q, table))
    requires Untouching(regions) ==> Coalesced(cells)
    ensures Loaded(cells, regions, i + 1, table)
  {
    forall q ensures q in cells <==> Usable(regions[..i + 1], table, q) { UsableMore(regions, i, table, q); }
  }

  // ---- Maximal coalescing is unique ----------------------------------------------------------

  /** All frames of an aligned range are free and of one zone. */
  ghost predicate FreeRange(cells: Cells, h: int, k: int) {
    && 0 <= k < MAX_ORDER && 0 <= h && Aligned(h, k) && ZoneOf(h) == ZoneOf(h + Pow2(k) - 1)
    && forall q :: h <= q < h + Pow2(k) ==> q in cells && cells[q].owner == OnList
  }

  // A block that meets an aligned range of no larger order covers it; at equal order it is the range.
  lemma Covers(cells: Cells, p: int, h: int, k: int)
    requires Partition(cells) && 0 <= k && Aligned(h, k) && h <= p < h + Pow2(k) && p in cells && cells[p].order >= k
    ensures h in cells && cells[h] == cells[p] && (cells[p].order == k ==> cells[p].head == h)
  {
    var b := cells[p];
    assert BlockOk(cells[p]) && CellOk(cells, p);
    Nested(b.head, b.order, h, k, p);
  }

  /** Without free pairs, an aligned range of free frames lies inside one block. */
  lemma {:induction false} RangeInBlock(cells: Cells, h: int, k: int)
    requires Partition(cells) && Coalesced(cells) && FreeRange(cells, h, k)
    ensures cells[h].order >= k
    decreases k
  {
    assert BlockOk(cells[h]);
    if k > 0 {
      var u := h + Pow2(k - 1);
      Halves(h, k - 1);
      RangeInBlock(cells, h, k - 1);
      RangeInBlock(cells, u, k - 1);
      assert BlockOk(cells[u]);
      if cells[u].order >= k {
        Covers(cells, u, h, k);
      } else if cells[h].order < k {
        Covers(cells, h, h, k - 1);
        Covers(cells, u, u, k - 1);
        assert FreePair(cells, h, k - 1, ZoneOf(h));
      }
    }
  }

  lemma NoLarger(cells: Cells, cells': Cells, p: int)
    requires Partition(cells) && Partition(cells') && Coalesced(cells) && p in cells && p in cells'
    requires forall q :: q in cells' ==> q in cells && cells[q].owner == OnList
    ensures cells[p].order >= cells'[p].order
  {
    var b := cells'[p];
    assert BlockOk(cells'[p]) && CellOk(cells', p);
    RangeInBlock(cells, b.head, b.order);
    assert BlockOk(cells[b.head]) && CellOk(cells, b.head);
    Nested(cells[b.head].head, cells[b.head].order, b.head, b.order, b.head);
    assert In(p, cells[b.head]);
  }

  ghost predicate AllFreeNow(cells: Cells) { forall q :: q in cells ==> cells[q].owner == OnList }

  /** The same usable frames, all free and without free pairs, make the same blocks. */
  lemma CoalescedUnique(cells: Cells, cells': Cells)
    requires Partition(cells) && Partition(cells') && Coalesced(cells) && Coalesced(cells')
    requires cells.Keys == cells'.Keys && AllFreeNow(cells) && AllFreeNow(cells')
    ensures cells == cells'
  {
    forall p | p in cells ensures p in cells' && cells[p] == cells'[p] {
      assert p in cells.Keys;
      assert forall q :: q in cells ==> q in cells.Keys;
      assert forall q :: q in cells' ==> q in cells'.Keys;
      NoLarger(cells, cells', p);
      NoLarger(cells', cells, p);
      assert BlockOk(cells'[p]) && CellOk(cells', p);
      Covers(cells, p, cells'[p].head, cells'[p].order);
    }
  }

  // ---- Conservation --------------------------------------------------------------------------

  ghost function LiveSet(cells: Cells): set<int> { set q | q in cells && cells[q].owner == Caller }

  ghost function CpuSet(cells: Cells, n: int): set<int> {
    set q | q in cells && cells[q].owner.OnCpu? && cells[q].owner.cpu < n
  }

  function Stacked(stacks: seq<seq<int>>): int { if stacks == [] then 0 else Stacked(stacks[..|stacks| - 1]) + |stacks[|stacks| - 1]| }

  ghost function Elements(s: seq<int>): set<int> { set q | q in s }

  lemma {:induction false} DistinctSize(s: seq<int>)
    requires NoDup(s)
    ensures |Elements(s)| == |s|
  {
    if s != [] {
      var n := |s| - 1;
      DistinctSize(s[..n]);
      assert Elements(s) == Elements(s[..n]) + {s[n]};
      assert s[n] !in s[..n];
    }
  }

  lemma CpuSetStep(cells: Cells, stacks: seq<seq<int>>, n: int)
    requires StacksOk(cells, stacks, []) && 0 < n <= CPUS
    ensures CpuSet(cells, n) == CpuSet(cells, n - 1) + Elements(stacks[n - 1]) && CpuSet(cells, n - 1) !! Elements(stacks[n - 1])
  {
    var top, c := stacks[n - 1], n - 1;
    assert StackOk(cells, stacks, c);
    forall q | q in CpuSet(cells, n) ensures q in CpuSet(cells, c) || q in top {
      assert CpuAt(cells, q);
      if q !in CpuSet(cells, c) { assert OnCpuAt(cells, q, c); }
    }
    forall q | q in top ensures q in CpuSet(cells, n) && q !in CpuSet(cells, c) { assert OnCpuAt(cells, q, c); }
  }

  lemma {:induction false} StackedSize(cells: Cells, stacks: seq<seq<int>>, n: int)
    requires StacksOk(cells, stacks, []) && 0 <= n <= CPUS
    ensures |CpuSet(cells, n)| == Stacked(stacks[..n])
  {
    if n == 0 {
      forall q ensures q !in CpuSet(cells, 0) {
        if q in CpuSet(cells, 0) { assert CpuAt(cells, q) && OnCpuAt(cells, q, -1); }
      }
    } else {
      StackedSize(cells, stacks, n - 1);
      CpuSetStep(cells, stacks, n);
      assert StackOk(cells, stacks, n - 1);
      DistinctSize(stacks[n - 1]);
      assert stacks[..n][..n - 1] == stacks[..n - 1];
    }
  }

  /** Free pages of all zones, frames on CPU stacks and frames with callers always add up to the usable frames. */
  lemma Conservation(c: Core, freePages: seq<int>, stacks: seq<seq<int>>)
    requires Ok(c, freePages, stacks, [])
    ensures |c.cells| == freePages[DMA] + freePages[DMA32] + freePages[NORMAL] + Stacked(stacks) + |LiveSet(c.cells)|
  {
    StackedSize(c.cells, stacks, CPUS);
    assert stacks[..CPUS] == stacks;
    var free := AllFree(c.cells);
    AllFreeSize(c.cells);
    var cpu, live := CpuSet(c.cells, CPUS), LiveSet(c.cells);
    forall q ensures q in c.cells.Keys <==> q in free + cpu + live {
      if q in c.cells { assert !HeldAt(c.cells, q) && (CpuAt(c.cells, q) ==> c.cells[q].owner.cpu < CPUS); }
    }
    assert c.cells.Keys == free + cpu + live;
  }

  ghost function AllFree(cells: Cells): set<int> { set q | q in cells && cells[q].owner == OnList }

  lemma AllFreeSize(cells: Cells)
    ensures |AllFree(cells)| == |FreeSet(cells, DMA)| + |FreeSet(cells, DMA32)| + |FreeSet(cells, NORMAL)|
  {
    assert AllFree(cells) == FreeSet(cells, DMA) + FreeSet(cells, DMA32) + FreeSet(cells, NORMAL);
  }

  // ---- Requests that carry the free flag -----------------------------------------------------

  /** A block whose buddy passes the test although it is on no free list: freeing the block would absorb it. */
  ghost predicate Misled(c: Core, b: Block) {
    && IsBlock(c.cells, b) && b.order < MAX_ORDER - 1 && 0 <= b.head < |c.pages|
    && Passes(c.pages, b) && !OnListAt(c.cells, BuddyOf(b.head, b.order), ListIndex(b))
  }

  lemma NeverMisled(c: Core, b: Block)
    requires CoreOk(c, -1)
    ensures !Misled(c, b)
  {
    if IsBlock(c.cells, b) { MergeTest(c, b, -1); }
  }

  /** A frame goes from its last caller to a CPU's stack. */
  ghost function Stowed(c: Core, p: int, cpu: int): Core
    requires 0 <= p < |c.pages|
  {
    Relabelled(c, Block(p, 0, Caller), OnCpu(cpu), c.pages[p].(refs := 0))
  }

  lemma Neighbours(p: int)
    requires p >= 0
    ensures var x := BuddyOf(p, 0); x >= 0 && x != p && BuddyOf(x, 0) == p && ZoneOf(x) == ZoneOf(p)
  {
  }

  // Only the neighbour of a stowed frame can be misled by it.
  lemma StowedElsewhere(c: Core, p: int, cpu: int, b: Block)
    requires CoreOk(c, -1) && IsBlock(c.cells, Block(p, 0, Caller)) && 0 <= p < |c.pages| && Misled(Stowed(c, p, cpu), b)
    ensures b.head == BuddyOf(p, 0) && b.head in c.cells && Free in c.pages[p].flags
  {
    var c', o := Stowed(c, p, cpu), Block(p, 0, Caller);
    var x, b0 := BuddyOf(b.head, b.order), c.cells[b.head];
    RelabelDisjoint(c.cells, o, OnCpu(cpu));
    RelabelOnList(c.cells, o, OnCpu(cpu));
    assert forall q :: In(q, o) <==> q == p;
    assert BlockOk(c.cells[b.head]) && DescAt(c.pages, c.cells, p);
    assert b0.head == b.head && b0.order == b.order;
    MergeTest(c, b0, -1);
    if x == p { BuddyBack(b0); }
  }

  /** When a frame goes to a stack, the test of some block is misled if and only if the frame was requested with the
      free flag and its neighbour is a usable frame. */
  lemma FlagsDecide(c: Core, p: int, cpu: int)
    requires CoreOk(c, -1) && IsBlock(c.cells, Block(p, 0, Caller)) && 0 <= cpu
    ensures 0 <= p < |c.pages|
    ensures (exists b :: Misled(Stowed(c, p, cpu), b)) <==> Free in c.pages[p].flags && BuddyOf(p, 0) in c.cells
  {
    assert BlockOk(c.cells[p]) && DescAt(c.pages, c.cells, p);
    forall b | Misled(Stowed(c, p, cpu), b) ensures Free in c.pages[p].flags && BuddyOf(p, 0) in c.cells { StowedElsewhere(c, p, cpu, b); }
    if Free in c.pages[p].flags && BuddyOf(p, 0) in c.cells { FlaggedMisleads(c, p, cpu); }
  }

  lemma FlaggedMisleads(c: Core, p: int, cpu: int)
    requires CoreOk(c, -1) && IsBlock(c.cells, Block(p, 0, Caller)) && 0 <= p < |c.pages|
    requires Free in c.pages[p].flags && BuddyOf(p, 0) in c.cells
    ensures Misled(Stowed(c, p, cpu), c.cells[BuddyOf(p, 0)])
  {
    var x, o := BuddyOf(p, 0), Block(p, 0, Caller);
    Neighbours(p);
    BuddyIsHead(c.cells, o);
    assert BlockOk(c.cells[x]) && DescAt(c.pages, c.cells, p) && DescAt(c.pages, c.cells, x);
    assert forall q :: In(q, o) <==> q == p;
    assert !OnListAt(Stowed(c, p, cpu).cells, p, ListIndex(c.cells[x]));
  }

  // ---- Runs ----------------------------------------------------------------------------------

  predicate NoStacks(stacks: seq<seq<int>>) { forall c :: 0 <= c < |stacks| ==> stacks[c] == [] }

  /** What callers and the kernel's start-up do; an index picks one of the references handed out so far. */
  datatype Request = Ready | Take(cpu: int, order: int, flags: set<Flag>) | Share(index: nat) | Give(cpu: int, index: nat) | Drop(cpu: int, index: nat)

  /** A request with the free flag must not yield single frames of the normal zone, for the reason `FlagsDecide` states. */
  predicate RequestOk(r: Request) {
    match r
    case Take(cpu, order, flags) => cpu >= 0 && order >= 0 && (Free in flags && order == 0 ==> TopZone(flags) < NORMAL)
    case Give(cpu, _) => cpu >= 0
    case Drop(cpu, _) => cpu >= 0
    case _ => true
  }

  /** The stacks are set up at most once. */
  predicate RequestsOk(requests: seq<Request>, ready: bool) {
    && (forall i :: 0 <= i < |requests| ==> RequestOk(requests[i]))
    && (forall i :: 0 <= i < |requests| && requests[i] == Ready ==> !ready)
    && (forall i, j :: 0 <= i < j < |requests| && requests[i] == Ready ==> requests[j] != Ready)
  }

  ghost predicate HeldOk(c: Core, held: seq<Block>, b: Block) {
    && IsBlock(c.cells, b) && b.owner == Caller && 0 <= b.head < |c.pages| && c.pages[b.head].refs == multiset(held)[b]
    && (b.order == 0 && ZoneOf(b.head) == NORMAL ==> Free !in c.pages[b.head].flags)
  }

  /** `held` lists the references that callers have: every caller's block is there as often as its descriptor counts. */
  ghost predicate HeldBy(c: Core, held: seq<Block>) {
    && (forall b {:trigger HeldOk(c, held, b)} :: b in held ==> HeldOk(c, held, b))
    && (forall q :: q in c.cells && c.cells[q].owner == Caller ==> c.cells[q] in held)
  }

  /** What a request makes of the references held, given what was free. */
  ghost predicate Served(r: Request, held: seq<Block>, held': seq<Block>, cells: Cells) {
    match r
    case Ready => held' == held
    case Take(_, order, flags) =>
      || (held' == held && (order >= MAX_ORDER || Nowhere(cells, flags, order)))
      || (0 <= order < MAX_ORDER && exists page :: held' == held + [Block(page, order, Caller)] && Within(flags, page, order))
    case Share(k) => held' == if k < |held| then held + [held[k]] else held
    case Give(_, k) => held' == if k < |held| then held[..k] + held[k + 1..] else held
    case Drop(_, k) => held' == if k < |held| then held[..k] + held[k + 1..] else held
  }

  /** A run in steps: each request is served on what the ones before have left. */
  ghost predicate ServedAll(requests: seq<Request>, trace: seq<(seq<Block>, Cells)>) {
    |trace| == |requests| + 1
    && forall i {:trigger requests[i]} :: 0 <= i < |requests| ==> Served(requests[i], trace[i].0, trace[i + 1].0, trace[i].1)
  }

  function Without(held: seq<Block>, k: int): seq<Block>
    requires 0 <= k < |held|
  {
    held[..k] + held[k + 1..]
  }

  lemma WithoutCounts(held: seq<Block>, k: int)
    requires 0 <= k < |held|
    ensures multiset(Without(held, k)) == multiset(held) - multiset{held[k]}
  {
    assert held == held[..k] + [held[k]] + held[k + 1..];
  }

  lemma WithoutHas(held: seq<Block>, k: int, b: Block)
    requires 0 <= k < |held|
    ensures b in Without(held, k) <==> multiset(Without(held, k))[b] > 0
    ensures b in held <==> multiset(held)[b] > 0
  {
  }

  lemma HeldMore(was: Core, c: Core, held: seq<Block>, b: Block)
    requires HeldBy(was, held) && LiveMore(was, c, b) && Disjoint(c.cells) && IsBlock(c.cells, b) && b.owner == Caller
    requires 0 <= b.head < |c.pages| && c.pages[b.head].refs == 1
    requires b.order == 0 && ZoneOf(b.head) == NORMAL ==> Free !in c.pages[b.head].flags
    ensures HeldBy(c, held + [b])
  {
    assert LiveAt(was, c, b, b.head) && In(b.head, b);
    assert b in held ==> HeldOk(was, held, b);
    assert b !in held;
    forall x | x in held + [b] ensures HeldOk(c, held + [b], x) {
      if x in held { assert HeldOk(was, held, x) && LiveAt(was, c, b, x.head); }
    }
    forall q | q in c.cells && c.cells[q].owner == Caller ensures c.cells[q] in held + [b] {
      assert LiveAt(was, c, b, q);
      if In(q, b) { Inside(c.cells, b, q); } else { assert was.cells[q] in held; }
    }
  }

  lemma HeldLess(was: Core, c: Core, held: seq<Block>, k: int)
    requires 0 <= k < |held| && HeldBy(was, held) && LiveMore(c, was, held[k]) && Disjoint(was.cells)
    requires 0 <= held[k].head < |was.pages| && was.pages[held[k].head].refs == 1
    ensures HeldBy(c, Without(held, k))
  {
    var b, rest := held[k], Without(held, k);
    WithoutCounts(held, k);
    assert HeldOk(was, held, b);
    forall x | x in rest ensures HeldOk(c, rest, x) {
      WithoutHas(held, k, x);
      assert HeldOk(was, held, x) && LiveAt(c, was, b, x.head);
      if In(x.head, b) { Inside(was.cells, b, x.head); }
    }
    forall q | q in c.cells && c.cells[q].owner == Caller ensures c.cells[q] in rest {
      assert LiveAt(c, was, b, q);
      var x := was.cells[q];
      assert x in held && CellOk(was.cells, q);
      WithoutHas(held, k, x);
    }
  }

  // Only the count of one held block changes, along with the references to it.
  lemma HeldCount(was: Core, c: Core, held: seq<Block>, held': seq<Block>, b: Block)
    requires HeldBy(was, held) && b in held && Disjoint(was.cells) && c.cells == was.cells && 0 <= b.head < |was.pages|
    requires c.pages == was.pages[b.head := was.pages[b.head].(refs := multiset(held')[b])]
    requires forall x :: (x in held <==> x in held') && (x != b ==> multiset(held')[x] == multiset(held)[x])
    ensures HeldBy(c, held')
  {
    assert HeldOk(was, held, b);
    forall x | x in held' ensures HeldOk(c, held', x) {
      assert HeldOk(was, held, x);
      if x.head == b.head { SameHead(was.cells, b, x.head); }
    }
  }

  /** References held at the same time are to one block, or share no frame. */
  lemma HeldApart(c: Core, held: seq<Block>, i: int, j: int, q: int)
    requires Disjoint(c.cells) && HeldBy(c, held) && 0 <= i < |held| && 0 <= j < |held| && held[i] != held[j]
    ensures !(In(q, held[i]) && In(q, held[j]))
  {
    assert HeldOk(c, held, held[i]) && HeldOk(c, held, held[j]);
    if In(q, held[i]) && In(q, held[j]) {
      Inside(c.cells, held[i], q);
      Inside(c.cells, held[j], q);
    }
  }

  class FrameAllocator {
    var pages: seq<Desc>
    var lists: seq<seq<int>>
    var freePages: seq<int>
    var stacks: seq<seq<int>>
    var smpReady: bool
    var usable: int
    ghost var cells: Cells

    ghost function Zones(): Core
      reads this
    {
      Core(pages, lists, cells)
    }

    /** What holds between calls: every usable frame is on a free list, in one CPU's stack or with a caller. */
    ghost predicate Valid()
      reads this
    {
      Ok(Zones(), freePages, stacks, []) && usable == |cells| && (!smpReady ==> NoStacks(stacks))
    }

    method FindOrder(z: int, order: int) returns (cur: int)
      requires ListsOk(lists, cells) && 0 <= z < ZONES && 0 <= order < MAX_ORDER
      ensures order <= cur <= MAX_ORDER && (cur < MAX_ORDER ==> lists[z * MAX_ORDER + cur] != [])
      ensures cur == MAX_ORDER <==> NoneIn(cells, z, order)
      ensures cur < MAX_ORDER ==> Smallest(lists, z, order, cur)
    {
      cur := order;
      while cur < MAX_ORDER && lists[z * MAX_ORDER + cur] == []
        invariant order <= cur <= MAX_ORDER
        invariant NoFree(cells, z * MAX_ORDER + order, z * MAX_ORDER + cur)
        invariant Bare(lists, z * MAX_ORDER + order, z * MAX_ORDER + cur)
      {
        assert ListOk(lists[z * MAX_ORDER + cur], cells, z * MAX_ORDER + cur);
        cur := cur + 1;
      }
      if cur < MAX_ORDER {
        assert ListOk(lists[z * MAX_ORDER + cur], cells, z * MAX_ORDER + cur);
        assert OnListAt(cells, lists[z * MAX_ORDER + cur][0], z * MAX_ORDER + cur);
      }
    }

    method TakeHead(i: int, order: int) returns (page: int)
      requires 0 <= i < |lists| && lists[i] != []
      modifies this`lists, this`cells
      ensures page == old(lists[i][0]) && Zones() == Taken(old(Zones()), i, Block(page, order, InHand))
    {
      page := lists[i][0];
      lists := lists[i := RemoveItem(lists[i], page)];
      cells := Paint(cells, Block(page, order, InHand));
    }

    method SplitOnce(page: int, z: int, cur: int)
      requires 0 <= cur && 0 <= page && page + Pow2(cur) < |pages| && pages[page].zone == z
      requires ZoneOf(page) == z && ZoneOf(page + Pow2(cur)) == z && 0 <= z * MAX_ORDER + cur < |lists|
      modifies this`pages, this`lists, this`cells
      ensures Upper(Block(page, cur + 1, InHand), OnList) == Block(page + Pow2(cur), cur, OnList)
      ensures Zones() == Split(old(Zones()), Block(page, cur + 1, InHand))
    {
      var buddy := page + Pow2(cur);
      pages := pages[buddy := Desc({Free}, 0, cur, pages[page].zone)];
      lists := lists[z * MAX_ORDER + cur := [buddy] + lists[z * MAX_ORDER + cur]];
      cells := SplitCells(cells, Block(page, cur + 1, InHand));
    }

    /**
     A block of the zone is taken from the smallest order that has one and split down to the request. It
     fails exactly when the zone has no free block of sufficient order.
     */
    method AllocFromZone(z: int, order: int, flags: set<Flag>) returns (page: int)
      requires CoreOk(Zones(), -1) && CountsOk(cells, freePages)
      requires 0 <= z < ZONES && 0 <= order < MAX_ORDER
      modifies this`pages, this`lists, this`freePages, this`cells
      ensures page == -1 <==> old(NoneIn(cells, z, order))
      ensures page == -1 ==> Zones() == old(Zones()) && freePages == old(freePages)
      ensures page != -1 ==> ZoneOf(page) == z && HandedOut(old(Zones()), Zones(), page, order, Desc(flags - {Zero}, 1, order, z))
      ensures page != -1 ==> FromSmallest(old(lists), z, order, page)
      ensures CountsOk(cells, freePages)
    {
      ghost var was := Zones();
      var cur := FindOrder(z, order);
      if cur == MAX_ORDER { return -1; }
      TakeHolds(was, z, cur);
      page := TakeHead(z * MAX_ORDER + cur, cur);
      SplitDown(page, z, cur, order, was);
      GiveOut(page, z, order, flags, was);
    }

    method SplitDown(page: int, z: int, found: int, order: int, ghost was: Core)
      requires Holding(was, Zones(), Block(page, found, InHand)) && ZoneOf(page) == z && 0 <= order <= found
      modifies this`pages, this`lists, this`cells
      ensures Holding(was, Zones(), Block(page, order, InHand))
    {
      var cur := found;
      while cur > order
        invariant order <= cur && Holding(was, Zones(), Block(page, cur, InHand))
      {
        SplitHolds(was, Zones(), Block(page, cur, InHand));
        assert DescAt(pages, cells, page);
        cur := cur - 1;
        SplitOnce(page, z, cur);
      }
    }

    method GiveOut(page: int, z: int, order: int, flags: set<Flag>, ghost was: Core)
      requires Holding(was, Zones(), Block(page, order, InHand)) && ZoneOf(page) == z
      requires CountsOk(was.cells, freePages)
      modifies this`pages, this`freePages, this`cells
      ensures HandedOut(was, Zones(), page, order, Desc(flags - {Zero}, 1, order, z)) && CountsOk(cells, freePages)
    {
      ghost var b := Block(page, order, InHand);
      GiveHandsOut(was, Zones(), b, Desc(flags - {Zero}, 1, order, z));
      assert DescAt(pages, cells, page);
      pages := pages[page := Desc(flags - {Zero}, 1, order, pages[page].zone)];
      cells := Paint(cells, b.(owner := Caller));
      TookOutCounts(was.cells, cells, b.(owner := Caller), freePages);
      freePages := freePages[z := freePages[z] - Pow2(order)];
    }

    /** The block in hand goes back to its zone, merged with its buddy as long as that is free and of the same order. */
    method FreeToZone(z: int, page: int, order: int)
      requires CoreOk(Zones(), page) && IsBlock(cells, Block(page, order, InHand)) && ZoneOf(page) == z
      requires CountsOk(cells, freePages)
      modifies this`pages, this`lists, this`freePages, this`cells
      ensures GivenBack(old(Zones()), Zones(), Block(page, order, InHand)) && CountsOk(cells, freePages)
    {
      ghost var was := Zones();
      ghost var b0 := Block(page, order, InHand);
      assert BlockOk(cells[page]);
      StartReturning(was, b0);
      var pfn, cur := page, order;
      while cur < MAX_ORDER - 1
        invariant order <= cur < MAX_ORDER && freePages == old(freePages) && ZoneOf(pfn) == z
        invariant Returning(was, Zones(), b0, Block(pfn, cur, InHand))
        invariant Coalesced(was.cells) ==> Coalesced(cells)
        decreases MAX_ORDER - cur
      {
        ghost var b := Block(pfn, cur, InHand);
        var buddy := BuddyOf(pfn, cur);
        MergeTest(Zones(), b, pfn);
        if buddy >= |pages| { break; }
        var d := pages[buddy];
        if Free !in d.flags || d.order != cur || d.zone != pages[pfn].zone || d.refs != 0 { break; }
        MergeReturns(was, Zones(), b0, b);
        lists := lists[z * MAX_ORDER + cur := RemoveItem(lists[z * MAX_ORDER + cur], buddy)];
        cells := Paint(cells, Merged(b));
        if buddy < pfn { pfn := buddy; }
        cur := cur + 1;
      }
      PutReturns(was, Zones(), b0, Block(pfn, cur, InHand));
      PutBlock(z, pfn, cur);
      TookOutCounts(cells, was.cells, b0, freePages);
      freePages := freePages[z := freePages[z] + Pow2(order)];
    }

    method PutBlock(z: int, page: int, order: int)
      requires 0 <= page < |pages| && DescsOk(pages, cells) && z == ZoneOf(page) && 0 <= z * MAX_ORDER + order < |lists|
      modifies this`pages, this`lists, this`cells
      ensures Zones() == Put(old(Zones()), Block(page, order, InHand))
    {
      assert DescAt(pages, cells, page);
      pages := pages[page := Desc({Free}, 0, order, pages[page].zone)];
      lists := lists[z * MAX_ORDER + order := [page] + lists[z * MAX_ORDER + order]];
      cells := Paint(cells, Block(page, order, OnList));
    }

    /** The frame moves from one idle owner to another; only the ghost map and its descriptor change. */
    method Relabel(page: int, ghost o: Owner, ghost o': Owner, d: Desc)
      requires 0 <= page < |pages|
      modifies this`pages, this`cells
      ensures Zones() == Relabelled(old(Zones()), Block(page, 0, o), o', d)
    {
      pages := pages[page := d];
      cells := Paint(cells, Block(page, 0, o'));
    }

    method PopCpu(cpu: int, flags: set<Flag>) returns (page: int)
      requires Ok(Zones(), freePages, stacks, []) && 0 <= cpu < CPUS && stacks[cpu] != []
      modifies this`pages, this`stacks, this`cells
      ensures Ok(Zones(), freePages, stacks, []) && IsBlock(cells, Block(page, 0, Caller)) && page >= 0
      ensures LiveMore(old(Zones()), Zones(), Block(page, 0, Caller))
      ensures 0 <= page < |pages| && pages[page] == Desc(flags - {Zero}, 1, 0, ZoneOf(page))
      ensures var n := |old(stacks)[cpu]| - 1; page == old(stacks)[cpu][n] && stacks == old(stacks)[cpu := old(stacks)[cpu][..n]]
      ensures old(Coalesced(cells)) ==> Coalesced(cells)
    {
      var n := |stacks[cpu]| - 1;
      page := stacks[cpu][n];
      PopStack(cells, Caller, stacks, [], cpu);
      MoveCore(Zones(), page, OnCpu(cpu), Caller, Desc(flags - {Zero}, 1, 0, ZoneOf(page)), freePages);
      MoveLive(Zones(), page, OnCpu(cpu), Caller, Desc(flags - {Zero}, 1, 0, ZoneOf(page)));
      assert DescAt(pages, cells, page);
      stacks := stacks[cpu := stacks[cpu][..n]];
      Relabel(page, OnCpu(cpu), Caller, Desc(flags - {Zero}, 1, 0, pages[page].zone));
    }

    method FetchOne(z: int, ghost batch: seq<int>) returns (page: int)
      requires Ok(Zones(), freePages, stacks, batch) && 0 <= z < ZONES
      modifies this`pages, this`lists, this`freePages, this`cells
      ensures page == -1 <==> old(NoneIn(cells, z, 0))
      ensures page == -1 ==> Zones() == old(Zones()) && freePages == old(freePages)
      ensures page != -1 ==> Ok(Zones(), freePages, stacks, batch + [page]) && ZoneOf(page) == z && page >= 0
      ensures LiveMore(old(Zones()), Zones(), Nothing)
      ensures old(Coalesced(cells)) ==> Coalesced(cells)
    {
      ghost var was := Zones();
      page := AllocFromZone(z, 0, {});
      LiveRefl(was);
      if page != -1 {
        TookLive(was, Zones(), Block(page, 0, Caller));
        TookStacks(was.cells, cells, Block(page, 0, Caller), stacks, batch);
        assert !OnCpuAt(cells, page, -1);
        PushMoves(batch, page);
        BatchMove(cells, page, Caller, OnCpu(-1), stacks, batch, batch + [page]);
        MoveCore(Zones(), page, Caller, OnCpu(-1), pages[page], freePages);
        MoveLive(Zones(), page, Caller, OnCpu(-1), pages[page]);
        ghost var mid := Zones();
        Relabel(page, Caller, OnCpu(-1), pages[page]);
        LiveBack(was, mid, Zones(), Block(page, 0, Caller));
      }
    }

    method FetchBatch(z: int) returns (batch: seq<int>)
      requires Ok(Zones(), freePages, stacks, []) && 0 <= z < ZONES
      modifies this`pages, this`lists, this`freePages, this`cells
      ensures Ok(Zones(), freePages, stacks, batch) && |batch| <= BATCH && forall i :: 0 <= i < |batch| ==> ZoneOf(batch[i]) == z
      ensures batch == [] ==> Zones() == old(Zones()) && freePages == old(freePages)
      ensures (|batch| < BATCH ==> NoneIn(cells, z, 0)) && (batch == [] <==> old(NoneIn(cells, z, 0)))
      ensures LiveMore(old(Zones()), Zones(), Nothing)
      ensures old(Coalesced(cells)) ==> Coalesced(cells)
    {
      batch := [];
      LiveRefl(Zones());
      while |batch| < BATCH
        invariant |batch| <= BATCH && Ok(Zones(), freePages, stacks, batch) && LiveMore(old(Zones()), Zones(), Nothing)
        invariant forall i :: 0 <= i < |batch| ==> ZoneOf(batch[i]) == z
        invariant if batch == [] then Zones() == old(Zones()) && freePages == old(freePages) else !old(NoneIn(cells, z, 0))
        invariant old(Coalesced(cells)) ==> Coalesced(cells)
      {
        ghost var mid := Zones();
        var p := FetchOne(z, batch);
        LiveTrans(old(Zones()), mid, Zones(), Nothing);
        if p == -1 { return; }
        batch := batch + [p];
      }
    }

    /** The first frame of the local batch goes to the top of a stack. */
    method PushCpu(cpu: int, page: int, ghost batch: seq<int>)
      requires StacksOk(cells, stacks, batch) && 0 <= cpu < CPUS && batch != [] && batch[0] == page && 0 <= page < |pages|
      requires |stacks[cpu]| < STACK && (|stacks[cpu]| >= BATCH - 1 ==> ZoneOf(page) == NORMAL)
      modifies this`stacks, this`cells
      ensures StacksOk(cells, stacks, batch[1..]) && stacks == old(stacks)[cpu := old(stacks)[cpu] + [page]]
      ensures Zones() == Relabelled(old(Zones()), Block(page, 0, OnCpu(-1)), OnCpu(cpu), pages[page])
      ensures LiveMore(old(Zones()), Zones(), Nothing)
      ensures old(Ok(Zones(), freePages, stacks, batch)) ==> Ok(Zones(), freePages, stacks, batch[1..])
      ensures old(CoreOk(Zones(), -1) && CountsOk(cells, freePages) && Coalesced(cells)) ==> Coalesced(cells)
    {
      assert OnCpuAt(cells, page, -1);
      FrontMoves(batch);
      PushStack(cells, page, OnCpu(-1), stacks, batch, batch[1..], cpu);
      if CoreOk(Zones(), -1) && CountsOk(cells, freePages) {
        assert DescAt(pages, cells, page);
        MoveCore(Zones(), page, OnCpu(-1), OnCpu(cpu), pages[page], freePages);
      }
      MoveLive(Zones(), page, OnCpu(-1), OnCpu(cpu), pages[page]);
      stacks := stacks[cpu := stacks[cpu] + [page]];
      assert pages[page := pages[page]] == pages;
      cells := Paint(cells, Block(page, 0, OnCpu(cpu)));
    }

    /** The first frame of the local batch becomes the caller's. */
    method KeepFirst(page: int, flags: set<Flag>, ghost batch: seq<int>)
      requires Ok(Zones(), freePages, stacks, batch) && batch != [] && batch[0] == page
      modifies this`pages, this`cells
      ensures Ok(Zones(), freePages, stacks, batch[1..]) && IsBlock(cells, Block(page, 0, Caller))
      ensures LiveMore(old(Zones()), Zones(), Block(page, 0, Caller))
      ensures 0 <= page < |pages| && pages[page] == Desc(flags - {Zero}, 1, 0, ZoneOf(page))
      ensures old(Coalesced(cells)) ==> Coalesced(cells)
    {
      assert OnCpuAt(cells, page, -1);
      FrontMoves(batch);
      BatchMove(cells, page, OnCpu(-1), Caller, stacks, batch, batch[1..]);
      assert DescAt(pages, cells, page);
      MoveCore(Zones(), page, OnCpu(-1), Caller, Desc(flags - {Zero}, 1, 0, ZoneOf(page)), freePages);
      MoveLive(Zones(), page, OnCpu(-1), Caller, Desc(flags - {Zero}, 1, 0, ZoneOf(page)));
      Relabel(page, OnCpu(-1), Caller, Desc(flags - {Zero}, 1, 0, pages[page].zone));
    }

    /** An empty stack is refilled with up to 15 frames, all there are or 15, and one more goes to the caller. */
    method Refill(cpu: int, flags: set<Flag>) returns (page: int)
      requires Ok(Zones(), freePages, stacks, []) && 0 <= cpu < CPUS && stacks[cpu] == []
      modifies this`pages, this`lists, this`freePages, this`stacks, this`cells
      ensures Ok(Zones(), freePages, stacks, [])
      ensures page == -1 ==> Zones() == old(Zones()) && freePages == old(freePages) && stacks == old(stacks)
      ensures page != -1 ==> IsBlock(cells, Block(page, 0, Caller)) && LiveMore(old(Zones()), Zones(), Block(page, 0, Caller))
      ensures page != -1 ==> 0 <= page < |pages| && pages[page] == Desc(flags - {Zero}, 1, 0, ZoneOf(page))
      ensures page == -1 <==> old(NoneIn(cells, RefillZone(freePages), 0))
      ensures page != -1 ==> Refilled(cells, old(stacks), stacks, cpu, page, old(RefillZone(freePages)))
      ensures old(Coalesced(cells)) ==> Coalesced(cells)
    {
      var z := if freePages[NORMAL] == 0 then DMA32 else NORMAL;
      var batch := FetchBatch(z);
      if batch == [] { return -1; }
      page := batch[0];
      BareIff(lists, cells, z, 0);
      ghost var mid := Zones();
      KeepFirst(page, flags, batch);
      LiveTrans(old(Zones()), mid, Zones(), Block(page, 0, Caller));
      var i := 1;
      assert batch[1..1] == [] && stacks[cpu := []] == stacks;
      while i < |batch|
        invariant 1 <= i <= |batch| <= BATCH && Ok(Zones(), freePages, stacks, batch[i..])
        invariant stacks == old(stacks)[cpu := batch[1..i]] && (|batch| < BATCH ==> Bare(lists, z * MAX_ORDER, (z + 1) * MAX_ORDER))
        invariant IsBlock(cells, Block(page, 0, Caller)) && LiveMore(old(Zones()), Zones(), Block(page, 0, Caller))
        invariant 0 <= page < |pages| && pages[page] == Desc(flags - {Zero}, 1, 0, ZoneOf(page))
        invariant old(Coalesced(cells)) ==> Coalesced(cells)
      {
        mid := Zones();
        assert OnCpuAt(cells, batch[i..][0], -1);
        PushCpu(cpu, batch[i], batch[i..]);
        assert batch[i..][1..] == batch[i + 1..] && batch[1..i] + [batch[i]] == batch[1..i + 1];
        assert LiveAt(mid, Zones(), Nothing, page);
        LiveTrans2(old(Zones()), mid, Zones(), Block(page, 0, Caller));
        i := i + 1;
      }
      BareIff(lists, cells, z, 0);
    }

    /** The zones are tried from the highest the request allows down to the lowest. */
    method AllocFromZones(order: int, flags: set<Flag>) returns (page: int)
      requires Ok(Zones(), freePages, stacks, []) && 0 <= order < MAX_ORDER
      modifies this`pages, this`lists, this`freePages, this`cells
      ensures Ok(Zones(), freePages, stacks, [])
      ensures page == -1 ==> Zones() == old(Zones()) && freePages == old(freePages)
      ensures page == -1 ==> forall z :: 0 <= z <= TopZone(flags) ==> NoneIn(cells, z, order)
      ensures page != -1 ==> forall z :: ZoneOf(page) < z <= TopZone(flags) ==> old(NoneIn(cells, z, order))
      ensures page == -1 ==> Nowhere(cells, flags, order)
      ensures page != -1 ==> Within(flags, page, order) && FromSmallest(old(lists), ZoneOf(page), order, page)
      ensures page != -1 ==> IsBlock(cells, Block(page, order, Caller)) && LiveMore(old(Zones()), Zones(), Block(page, order, Caller))
      ensures page != -1 ==> 0 <= page < |pages| && pages[page] == Desc(flags - {Zero}, 1, order, ZoneOf(page)) && ZoneOf(page) <= TopZone(flags)
      ensures old(Coalesced(cells)) ==> Coalesced(cells)
    {
      var z := TopZone(flags);
      while z >= 0
        invariant -1 <= z <= TopZone(flags) && Zones() == old(Zones()) && freePages == old(freePages)
        invariant forall x :: z < x <= TopZone(flags) ==> NoneIn(cells, x, order)
      {
        ghost var was := Zones();
        page := AllocFromZone(z, order, flags);
        if page != -1 {
          TookLive(was, Zones(), Block(page, order, Caller));
          TookStacks(was.cells, cells, Block(page, order, Caller), stacks, []);
          assert BlockOk(cells[page]);
          ZoneLimits(cells[page]);
          return;
        }
        z := z - 1;
      }
      page := -1;
    }

    /** A single frame without flags comes from the stack of the processor, once the stacks are set up. */
    predicate Fast(order: int, flags: set<Flag>)
      reads this
    {
      order == 0 && (flags == {} || flags == {Zero}) && smpReady
    }

    /** The stack has a frame, or the zone it is refilled from has. */
    ghost predicate Stocked(cpu: int)
      requires 0 <= cpu < |stacks|
      reads this
    {
      stacks[cpu] != [] || !NoneIn(cells, RefillZone(freePages), 0)
    }

    /**
     The allocation entry point; -1 stands for the null result. The block is aligned to its size, stays below the limit
     that the flags set, and comes from the stack, from a refill, or from the smallest order of the highest zone that
     has it.
     */
    method AllocOrder(cpuId: int, order: int, flags: set<Flag>) returns (page: int)
      requires Valid() && 0 <= order && 0 <= cpuId
      modifies this`pages, this`lists, this`freePages, this`stacks, this`cells
      ensures Valid()
      ensures page == -1 ==> Zones() == old(Zones()) && freePages == old(freePages) && stacks == old(stacks)
      ensures page == -1 && order < MAX_ORDER ==> Nowhere(cells, flags, order)
      ensures page != -1 ==> order < MAX_ORDER && IsBlock(cells, Block(page, order, Caller))
      ensures page != -1 ==> Within(flags, page, order) && page % Pow2(order) == 0
      ensures page != -1 ==> LiveMore(old(Zones()), Zones(), Block(page, order, Caller))
      ensures page != -1 ==> 0 <= page < |pages| && pages[page] == Desc(flags - {Zero}, 1, order, ZoneOf(page)) && ZoneOf(page) <= TopZone(flags)
      ensures old(Fast(order, flags) && stacks[CpuOf(cpuId)] != []) ==>
                var was := old(stacks)[CpuOf(cpuId)]; page == was[|was| - 1] && stacks == old(stacks)[CpuOf(cpuId) := was[..|was| - 1]]
      ensures old(Fast(order, flags) && stacks[CpuOf(cpuId)] == [] && Stocked(CpuOf(cpuId))) ==>
                Refilled(cells, old(stacks), stacks, CpuOf(cpuId), page, old(RefillZone(freePages)))
      ensures old(!Fast(order, flags) || !Stocked(CpuOf(cpuId))) ==>
                && stacks == old(stacks)
                && (page != -1 ==> FromSmallest(old(lists), ZoneOf(page), order, page))
                && (page != -1 ==> forall z :: ZoneOf(page) < z <= TopZone(flags) ==> old(NoneIn(cells, z, order)))
      ensures old(Coalesced(cells)) ==> Coalesced(cells)
    {
      if order >= MAX_ORDER { return -1; }
      var cpu := CpuOf(cpuId);
      if order == 0 && (flags == {} || flags == {Zero}) && smpReady {
        if stacks[cpu] != [] {
          page := PopCpu(cpu, flags);
          LiveSize(old(Zones()), Zones(), Block(page, 0, Caller));
          return;
        }
        page := Refill(cpu, flags);
        if page != -1 {
          LiveSize(old(Zones()), Zones(), Block(page, 0, Caller));
          return;
        }
      }
      page := AllocFromZones(order, flags);
      if page != -1 {
        LiveSize(old(Zones()), Zones(), Block(page, order, Caller));
        assert BlockOk(cells[page]);
        AlignedMeans(page, order);
      }
    }

    /** The first frame of the local batch goes back to its zone. */
    method FreeBatchFirst(page: int, ghost batch: seq<int>)
      requires Ok(Zones(), freePages, stacks, batch) && batch != [] && batch[0] == page && ZoneOf(page) == NORMAL
      modifies this`pages, this`lists, this`freePages, this`cells
      ensures Ok(Zones(), freePages, stacks, batch[1..]) && LiveMore(old(Zones()), Zones(), Nothing)
      ensures old(Coalesced(cells)) ==> Coalesced(cells)
    {
      BatchToHand(cells, stacks, batch);
      ghost var b := Block(page, 0, OnCpu(-1));
      ghost var was := Zones();
      assert DescAt(pages, cells, page);
      HoldBlock(was, b, pages[page], freePages);
      cells := Paint(cells, b.(owner := InHand));
      assert pages[page := pages[page]] == pages;
      ghost var mid := Zones();
      assert mid == Relabelled(was, b, InHand, pages[page]);
      FreeToZone(NORMAL, page, 0);
      GivenLive(mid, Zones(), b.(owner := InHand));
      GivenStacks(mid.cells, cells, b.(owner := InHand), stacks, batch[1..]);
      LiveTrans(was, mid, Zones(), Nothing);
    }

    /** Sixteen frames are popped into a local array, all of the normal zone. */
    method PopBatch(cpu: int, page: int) returns (batch: seq<int>)
      requires Ok(Zones(), freePages, stacks, [page]) && 0 <= cpu < CPUS && |stacks[cpu]| == STACK
      modifies this`pages, this`stacks, this`cells
      ensures Ok(Zones(), freePages, stacks, [page] + batch) && |batch| == BATCH
      ensures stacks == old(stacks)[cpu := old(stacks)[cpu][..STACK - BATCH]]
      ensures forall i :: 0 <= i < BATCH ==> ZoneOf(batch[i]) == NORMAL
      ensures LiveMore(old(Zones()), Zones(), Nothing)
      ensures old(Coalesced(cells)) ==> Coalesced(cells)
    {
      batch := [];
      LiveRefl(Zones());
      assert [page] + batch == [page] && stacks[cpu][..STACK] == stacks[cpu];
      while |batch| < BATCH
        invariant |batch| <= BATCH && Ok(Zones(), freePages, stacks, [page] + batch)
        invariant stacks == old(stacks)[cpu := old(stacks)[cpu][..STACK - |batch|]] && LiveMore(old(Zones()), Zones(), Nothing)
        invariant forall i :: 0 <= i < |batch| ==> ZoneOf(batch[i]) == NORMAL
        invariant old(Coalesced(cells)) ==> Coalesced(cells)
      {
        ghost var mid := Zones();
        assert StackOk(cells, stacks, cpu);
        var n := STACK - |batch|;
        assert old(stacks)[cpu][..n][..n - 1] == old(stacks)[cpu][..n - 1];
        var p := PopOne(cpu, [page] + batch);
        assert [page] + batch + [p] == [page] + (batch + [p]);
        LiveTrans(old(Zones()), mid, Zones(), Nothing);
        batch := batch + [p];
      }
    }

    method PopOne(cpu: int, ghost batch: seq<int>) returns (p: int)
      requires Ok(Zones(), freePages, stacks, batch) && 0 <= cpu < CPUS && stacks[cpu] != []
      modifies this`pages, this`stacks, this`cells
      ensures Ok(Zones(), freePages, stacks, batch + [p]) && LiveMore(old(Zones()), Zones(), Nothing)
      ensures var n := |old(stacks)[cpu]| - 1; p == old(stacks)[cpu][n] && stacks == old(stacks)[cpu := old(stacks)[cpu][..n]]
      ensures old(Coalesced(cells)) ==> Coalesced(cells)
    {
      var n := |stacks[cpu]| - 1;
      p := stacks[cpu][n];
      PopStack(cells, OnCpu(-1), stacks, batch, cpu);
      assert DescAt(pages, cells, p);
      MoveCore(Zones(), p, OnCpu(cpu), OnCpu(-1), pages[p], freePages);
      MoveLive(Zones(), p, OnCpu(cpu), OnCpu(-1), pages[p]);
      stacks := stacks[cpu := stacks[cpu][..n]];
      Relabel(p, OnCpu(cpu), OnCpu(-1), pages[p]);
    }

    /** A freed frame of the normal zone goes to the stack; a full stack is first drained by sixteen frames. */
    method FreeToCpu(cpu: int, page: int)
      requires StacksOk(cells, stacks, [page]) && 0 <= cpu < CPUS && ZoneOf(page) == NORMAL && 0 <= page < |pages|
      requires |stacks[cpu]| < STACK || Ok(Zones(), freePages, stacks, [page])
      modifies this`pages, this`lists, this`freePages, this`stacks, this`cells
      ensures old(Ok(Zones(), freePages, stacks, [page])) ==> Ok(Zones(), freePages, stacks, []) && LiveMore(old(Zones()), Zones(), Nothing)
      ensures old(Ok(Zones(), freePages, stacks, [page]) && Coalesced(cells)) ==> Coalesced(cells)
      ensures old(|stacks[cpu]|) < STACK ==>
                && Zones() == Relabelled(old(Zones()), Block(page, 0, OnCpu(-1)), OnCpu(cpu), old(pages[page])) && freePages == old(freePages)
                && stacks == old(stacks)[cpu := old(stacks)[cpu] + [page]]
      ensures old(|stacks[cpu]|) == STACK ==> stacks == old(stacks)[cpu := old(stacks)[cpu][..STACK - BATCH] + [page]]
    {
      assert StackOk(cells, stacks, cpu);
      if |stacks[cpu]| < STACK {
        PushCpu(cpu, page, [page]);
        return;
      }
      var batch := PopBatch(cpu, page);
      ghost var mid := Zones();
      assert DescAt(pages, cells, page);
      PushCpu(cpu, page, [page] + batch);
      assert ([page] + batch)[1..] == batch[0..];
      LiveTrans(old(Zones()), mid, Zones(), Nothing);
      mid := Zones();
      DrainBatch(batch);
      LiveTrans(old(Zones()), mid, Zones(), Nothing);
    }

    /** The drained frames go back to the zone one by one. */
    method DrainBatch(batch: seq<int>)
      requires Ok(Zones(), freePages, stacks, batch) && forall i :: 0 <= i < |batch| ==> ZoneOf(batch[i]) == NORMAL
      modifies this`pages, this`lists, this`freePages, this`cells
      ensures Ok(Zones(), freePages, stacks, []) && LiveMore(old(Zones()), Zones(), Nothing)
      ensures old(Coalesced(cells)) ==> Coalesced(cells)
    {
      LiveRefl(Zones());
      assert batch[0..] == batch;
      for i := 0 to |batch|
        invariant Ok(Zones(), freePages, stacks, batch[i..]) && LiveMore(old(Zones()), Zones(), Nothing)
        invariant old(Coalesced(cells)) ==> Coalesced(cells)
      {
        ghost var mid := Zones();
        FreeBatchFirst(batch[i], batch[i..]);
        assert batch[i..][1..] == batch[i + 1..];
        LiveTrans(old(Zones()), mid, Zones(), Nothing);
      }
    }

    /** The release puts a frame that was requested with the free flag on a stack. */
    ghost predicate Stows(page: int, order: int)
      requires 0 <= page < |pages|
      reads this
    {
      order == 0 && pages[page].refs == 1 && pages[page].zone == NORMAL && smpReady && Free in pages[page].flags
    }

    /** The release is the last one of a single frame above 4 GiB, and the stacks are set up. */
    predicate ToStack(page: int, order: int)
      requires 0 <= page < |pages|
      reads this
    {
      order == 0 && pages[page].refs == 1 && page >= 0x100000 && smpReady
    }

    /**
     The release entry point. Dropping one of several references only counts down, and a frame without references is
     left alone; the last reference gives back exactly the caller's block, a single frame above 4 GiB to the stack of
     the processor, from which sixteen frames are drained when it is full, and all else to the free lists. A frame that
     carries the free flag goes to the stack like any other, and `FlagsDecide` says what follows.
     */
    method FreeOrder(cpuId: int, page: int, order: int)
      requires Valid() && 0 <= page < |pages| && 0 <= cpuId && 0 <= order && pages[page].refs >= 0
      requires order < MAX_ORDER && pages[page].refs >= 1 ==> IsBlock(cells, Block(page, order, Caller))
      requires Stows(page, order) ==> |stacks[CpuOf(cpuId)]| < STACK
      modifies this`pages, this`lists, this`freePages, this`stacks, this`cells
      ensures !old(Stows(page, order)) ==> Valid()
      ensures old(Stows(page, order)) ==>
                && Zones() == Stowed(old(Zones()), page, CpuOf(cpuId))
                && stacks == old(stacks)[CpuOf(cpuId) := old(stacks)[CpuOf(cpuId)] + [page]]
      ensures order >= MAX_ORDER || old(pages[page].refs) != 1 ==>
                cells == old(cells) && lists == old(lists) && freePages == old(freePages) && stacks == old(stacks)
                && pages == if order < MAX_ORDER && old(pages[page].refs) > 1 then old(pages)[page := old(pages[page]).(refs := old(pages[page].refs) - 1)] else old(pages)
      ensures order < MAX_ORDER && old(pages[page].refs) == 1 ==> LiveMore(Zones(), old(Zones()), Block(page, order, Caller))
      ensures !old(Stows(page, order)) && old(Coalesced(cells)) ==> Coalesced(cells)
      ensures old(ToStack(page, order)) ==>
                var was := old(stacks)[CpuOf(cpuId)];
                stacks == old(stacks)[CpuOf(cpuId) := (if |was| < 32 then was else was[..16]) + [page]]
      ensures old(ToStack(page, order)) && |old(stacks)[CpuOf(cpuId)]| < 32 ==> lists == old(lists) && freePages == old(freePages)
      ensures !old(ToStack(page, order)) ==> stacks == old(stacks)
      ensures !old(ToStack(page, order)) && order < MAX_ORDER && old(pages[page].refs) == 1 ==>
                forall q :: page <= q < page + Pow2(order) ==> q in cells && cells[q].owner == OnList
    {
      if order >= MAX_ORDER { return; }
      assert DescAt(pages, cells, page);
      var prev := pages[page].refs;
      if prev > 1 {
        CountDown(Zones(), Block(page, order, Caller), freePages, stacks);
        pages := pages[page := pages[page].(refs := prev - 1)];
        return;
      }
      if prev == 0 { return; }
      if order == 0 && pages[page].zone == NORMAL && smpReady {
        StowFrame(CpuOf(cpuId), page);
      } else {
        ReturnBlock(page, order);
      }
    }

    /** The last reference to a frame of the normal zone is dropped. */
    method StowFrame(cpu: int, page: int)
      requires Valid() && smpReady && 0 <= page < |pages| && 0 <= cpu < CPUS && IsBlock(cells, Block(page, 0, Caller))
      requires pages[page].refs == 1 && ZoneOf(page) == NORMAL && (Free in pages[page].flags ==> |stacks[cpu]| < STACK)
      modifies this`pages, this`lists, this`freePages, this`stacks, this`cells
      ensures Free !in old(pages[page].flags) ==> Valid()
      ensures Free !in old(pages[page].flags) && old(Coalesced(cells)) ==> Coalesced(cells)
      ensures Free in old(pages[page].flags) ==> Zones() == Stowed(old(Zones()), page, cpu) && stacks == old(stacks)[cpu := old(stacks)[cpu] + [page]]
      ensures LiveMore(Zones(), old(Zones()), Block(page, 0, Caller))
      ensures var was := old(stacks)[cpu]; stacks == old(stacks)[cpu := (if |was| < 32 then was else was[..16]) + [page]]
      ensures |old(stacks)[cpu]| < 32 ==> lists == old(lists) && freePages == old(freePages)
    {
      ghost var was := Zones();
      assert StackOk(cells, stacks, cpu);
      assert DescAt(pages, cells, page);
      var d := pages[page].(refs := 0);
      if Free !in d.flags { MoveCore(was, page, Caller, OnCpu(-1), d, freePages); }
      MoveLive(was, page, Caller, OnCpu(-1), d);
      assert !OnCpuAt(cells, page, -1);
      PushMoves([], page);
      BatchMove(cells, page, Caller, OnCpu(-1), stacks, [], [page]);
      Relabel(page, Caller, OnCpu(-1), d);
      ghost var mid := Zones();
      FreeToCpu(cpu, page);
      if Free !in d.flags {
        ReleaseTrans(was, mid, Zones(), Block(page, 0, Caller));
        LiveSize(Zones(), was, Block(page, 0, Caller));
      } else {
        PaintTwice(was.cells, page, OnCpu(-1), OnCpu(cpu));
        assert was.pages[page := d][page := d] == was.pages[page := d];
        assert Zones() == Stowed(was, page, cpu);
        MoveLive(was, page, Caller, OnCpu(cpu), d);
      }
    }

    /** The last reference to any other block is dropped. */
    method ReturnBlock(page: int, order: int)
      requires Valid() && 0 <= page < |pages| && 0 <= order && IsBlock(cells, Block(page, order, Caller)) && pages[page].refs == 1
      modifies this`pages, this`lists, this`freePages, this`cells
      ensures Valid() && LiveMore(Zones(), old(Zones()), Block(page, order, Caller))
      ensures forall q :: page <= q < page + Pow2(order) ==> q in cells && cells[q].owner == OnList
      ensures old(Coalesced(cells)) ==> Coalesced(cells)
    {
      ghost var was, b := Zones(), Block(page, order, Caller);
      assert DescAt(pages, cells, page);
      var d := pages[page].(refs := 0);
      HoldBlock(was, b, d, freePages);
      HoldStacks(cells, b, stacks, []);
      pages, cells := pages[page := d], Paint(cells, b.(owner := InHand));
      ghost var mid := Zones();
      FreeToZone(d.zone, page, order);
      GivenLive(mid, Zones(), b.(owner := InHand));
      GivenStacks(mid.cells, cells, b.(owner := InHand), stacks, []);
      ReleaseTrans(was, mid, Zones(), b);
      LiveSize(Zones(), was, b);
      forall q | page <= q < page + Pow2(order) ensures q in cells && cells[q].owner == OnList {
        assert MovedAt(cells, mid.cells, b.(owner := InHand), q);
      }
    }

    /** One more reference to a caller's block. */
    method PageRef(page: int)
      requires Valid() && 0 <= page < |pages| && page in cells && cells[page].head == page && cells[page].owner == Caller
      modifies this`pages
      ensures Valid() && pages == old(pages)[page := old(pages[page]).(refs := old(pages[page].refs) + 1)]
    {
      assert BlockOk(cells[page]);
      CountUp(Zones(), cells[page], freePages, stacks);
      pages := pages[page := pages[page].(refs := pages[page].refs + 1)];
    }

    /** A frame requested with the free flag while the normal zone has one, and released: whoever frees its neighbour
        next absorbs a stacked frame. */
    method FlaggedFrame(cpuId: int) returns (page: int)
      requires Valid() && smpReady && 0 <= cpuId && |stacks[CpuOf(cpuId)]| < STACK && !NoneIn(cells, NORMAL, 0)
      modifies this`pages, this`lists, this`freePages, this`stacks, this`cells
      ensures |stacks| == CPUS && page in stacks[CpuOf(cpuId)] && ZoneOf(page) == NORMAL
      ensures page >= 0 && (BuddyOf(page, 0) in cells ==> Misled(Zones(), cells[BuddyOf(page, 0)]))
    {
      assert !NoneIn(cells, NORMAL, 0);
      page := AllocOrder(cpuId, 0, {Free});
      assert ZoneOf(page) == NORMAL;
      assert DescAt(pages, cells, page) && BlockOk(cells[page]);
      ghost var was := Zones();
      FreeOrder(cpuId, page, 0);
      if BuddyOf(page, 0) in cells {
        Neighbours(page);
        FlaggedMisleads(was, page, CpuOf(cpuId));
      }
    }

    /** Before any memory is ingested: every descriptor reserved, nothing free. */
    constructor (total: nat)
      ensures Valid() && |pages| == total && cells == map[] && !smpReady
    {
      pages := seq(total, p => Desc({Reserved}, 1, 0, ZoneOf(p)));
      lists := seq(ZONES * MAX_ORDER, _ => []);
      freePages := [0, 0, 0];
      stacks := seq(CPUS, _ => []);
      smpReady := false;
      usable := 0;
      cells := map[];
      new;
      forall p | 0 <= p < |pages| ensures DescAt(pages, cells, p) { }
      forall i | 0 <= i < |lists| ensures ListOk(lists[i], cells, i) { }
      forall c | 0 <= c < CPUS ensures StackOk(cells, stacks, c) { }
    }

    method AddFreeBlock(page: int, order: int)
      requires Valid() && NewBlock(Zones(), Block(page, order, OnList))
      modifies this`pages, this`lists, this`freePages, this`usable, this`cells
      ensures Valid() && |pages| == old(|pages|) && usable == old(usable) + Pow2(order)
      ensures cells == AddCells(old(cells), Block(page, order, OnList))
    {
      ghost var b := Block(page, order, OnList);
      AddKeeps(Zones(), b);
      InOneZone(b);
      AddCounts(cells, b, freePages);
      AddSize(cells, b);
      AddStacks(cells, b, stacks);
      assert DescAt(pages, cells, page);
      var z := pages[page].zone;
      PushFree(z, page, order);
      freePages := freePages[z := freePages[z] + Pow2(order)];
      usable := usable + Pow2(order);
    }

    method PushFree(z: int, page: int, order: int)
      requires 0 <= order && 0 <= page < |pages| && pages[page].zone == z == ZoneOf(page) && 0 <= z * MAX_ORDER + order < |lists|
      modifies this`pages, this`lists, this`cells
      ensures Zones() == Added(old(Zones()), Block(page, order, OnList))
    {
      pages := pages[page := Desc({Free}, 0, order, pages[page].zone)];
      lists := lists[z * MAX_ORDER + order := [page] + lists[z * MAX_ORDER + order]];
      cells := AddCells(cells, Block(page, order, OnList));
    }

    /** A range of frames is cut greedily into the largest aligned blocks that stay inside it and inside one zone. */
    method IngestRange(start: int, end: int)
      requires Valid() && 0 <= start <= end <= |pages| && forall q :: start <= q < end ==> q !in cells
      modifies this`pages, this`lists, this`freePages, this`usable, this`cells
      ensures Valid() && |pages| == old(|pages|) && usable == old(usable) + (end - start)
      ensures Ingested(old(cells), cells, start, end)
      ensures old(Coalesced(cells)) && start - 1 !in old(cells) && end !in old(cells) ==> Coalesced(cells)
    {
      var cur := start;
      ghost var was, last := cells, start;
      while cur < end
        invariant start <= cur <= end && Valid() && |pages| == old(|pages|) && usable == old(usable) + (cur - start)
        invariant Ingesting(was, cells, start, last, cur, end)
      {
        var order := LargestOrder(cur, end);
        IngestStep(was, cells, start, last, cur, end, Block(cur, order, OnList));
        AddFreeBlock(cur, order);
        last := cur;
        cur := cur + Pow2(order);
      }
    }

    method LargestOrder(cur: int, end: int) returns (order: int)
      requires 0 <= cur < end
      ensures BlockOk(Block(cur, order, OnList)) && cur + Pow2(order) <= end
      ensures order + 1 < MAX_ORDER ==> !BlockOk(Block(cur, order + 1, OnList)) || cur + Pow2(order + 1) > end
    {
      order := 0;
      while order < MAX_ORDER - 1
        invariant 0 <= order < MAX_ORDER && BlockOk(Block(cur, order, OnList)) && cur + Pow2(order) <= end
      {
        var size := Pow2(order + 1);
        if !Aligned(cur, order + 1) || cur + size > end { break; }
        if ZoneOf(cur) != ZoneOf(cur + size - 1) { break; }
        order := order + 1;
      }
    }

    /** A usable region is ingested around the frames of the descriptor array. */
    method IngestRegion(r: Region, table: Region)
      requires Valid() && 0 <= r.lo <= r.hi <= |pages| && table.lo < table.hi && forall q :: r.lo <= q < r.hi ==> q !in cells
      modifies this`pages, this`lists, this`freePages, this`usable, this`cells
      ensures Valid() && |pages| == old(|pages|)
      ensures forall q :: q in cells <==> q in old(cells) || (InRegion(q, r) && !InRegion(q, table))
      ensures AllListed(old(cells), cells)
      ensures old(Coalesced(cells)) && r.lo - 1 !in old(cells) && r.hi !in old(cells) ==> Coalesced(cells)
    {
      if r.hi <= table.lo || r.lo >= table.hi {
        IngestRange(r.lo, r.hi);
      } else {
        if r.lo < table.lo { IngestRange(r.lo, table.lo); }
        if r.hi > table.hi { IngestRange(table.hi, r.hi); }
      }
    }

    /** Start-up: all usable regions of the memory map are ingested around the descriptor array. */
    method Init(regions: seq<Region>, table: Region)
      requires Valid() && cells == map[] && RegionsOk(regions, |pages|) && table.lo < table.hi
      modifies this`pages, this`lists, this`freePages, this`usable, this`cells
      ensures Serving([]) && AllListed(map[], cells)
      ensures forall q :: q in cells <==> Usable(regions, table, q)
      ensures Untouching(regions) ==> Coalesced(cells)
    {
      NoneLoaded(regions, table);
      for i := 0 to |regions|
        invariant Valid() && |pages| == old(|pages|) && Loaded(cells, regions, i, table)
      {
        IngestNext(regions, i, table);
      }
      assert regions[..|regions|] == regions;
    }

    method IngestNext(regions: seq<Region>, i: int, table: Region)
      requires Valid() && 0 <= i < |regions| && RegionsOk(regions, |pages|) && table.lo < table.hi && Loaded(cells, regions, i, table)
      modifies this`pages, this`lists, this`freePages, this`usable, this`cells
      ensures Valid() && |pages| == old(|pages|) && Loaded(cells, regions, i + 1, table)
    {
      NextRegion(cells, regions, i, table);
      ghost var was := cells;
      IngestRegion(regions[i], table);
      RegionLoaded(was, cells, regions, i, table);
    }

    /** The per-CPU stacks are emptied and switched on. This keeps every frame exactly when they were empty. */
    method InitPercpu()
      requires Valid()
      modifies this`stacks, this`smpReady
      ensures smpReady && |stacks| == CPUS && NoStacks(stacks)
      ensures Valid() <==> NoStacks(old(stacks))
    {
      ghost var was := stacks;
      for c := 0 to CPUS
        invariant |stacks| == CPUS && forall i :: 0 <= i < CPUS ==> stacks[i] == if i < c then [] else was[i]
      {
        stacks := stacks[c := []];
      }
      smpReady := true;
      assert NoStacks(was) ==> stacks == was;
      if c :| 0 <= c < CPUS && was[c] != [] {
        assert StackOk(cells, was, c);
        assert OnCpuAt(cells, was[c][0], c);
        assert !StackOk(cells, stacks, c);
      }
    }

    ghost predicate Serving(held: seq<Block>)
      reads this
    {
      Valid() && HeldBy(Zones(), held)
    }

    /** A block requested by a caller. */
    method ServeTake(cpu: int, order: int, flags: set<Flag>, held: seq<Block>) returns (held': seq<Block>)
      requires Serving(held) && RequestOk(Take(cpu, order, flags))
      modifies this`pages, this`lists, this`freePages, this`stacks, this`cells
      ensures Serving(held') && Served(Take(cpu, order, flags), held, held', old(cells))
      ensures cells.Keys == old(cells).Keys && (old(Coalesced(cells)) ==> Coalesced(cells))
    {
      ghost var was := Zones();
      held' := held;
      var page := AllocOrder(cpu, order, flags);
      if page != -1 {
        HeldMore(was, Zones(), held, Block(page, order, Caller));
        SameKeys(was, Zones(), Block(page, order, Caller));
        held' := held + [Block(page, order, Caller)];
      }
    }

    /** A reference is given back, with the order the caller knows or the one in the descriptor. */
    method ServeGive(cpu: int, k: int, known: bool, held: seq<Block>) returns (held': seq<Block>)
      requires Serving(held) && cpu >= 0 && 0 <= k < |held|
      modifies this`pages, this`lists, this`freePages, this`stacks, this`cells
      ensures Serving(held') && held' == Without(held, k)
      ensures cells.Keys == old(cells).Keys && (old(Coalesced(cells)) ==> Coalesced(cells))
    {
      ghost var was := Zones();
      var b := held[k];
      assert HeldOk(was, held, b) && BlockOk(cells[b.head]) && DescAt(pages, cells, b.head);
      var order := if known then b.order else pages[b.head].order;
      held' := Without(held, k);
      FreeOrder(cpu, b.head, order);
      WithoutCounts(held, k);
      if was.pages[b.head].refs == 1 {
        HeldLess(was, Zones(), held, k);
        SameKeys(Zones(), was, b);
      } else {
        forall x ensures x in held <==> x in held' { WithoutHas(held, k, x); }
        HeldCount(was, Zones(), held, held', b);
      }
    }

    method ServeShare(k: int, held: seq<Block>) returns (held': seq<Block>)
      requires Serving(held) && 0 <= k < |held|
      modifies this`pages
      ensures Serving(held') && held' == held + [held[k]]
    {
      ghost var was := Zones();
      var b := held[k];
      assert HeldOk(was, held, b);
      held' := held + [b];
      PageRef(b.head);
      HeldCount(was, Zones(), held, held', b);
    }

    /** Any run of requests, shared references and releases from any CPUs. */
    method Serve(requests: seq<Request>) returns (held: seq<Block>, ghost trace: seq<(seq<Block>, Cells)>)
      requires Serving([]) && RequestsOk(requests, smpReady)
      modifies this`pages, this`lists, this`freePages, this`stacks, this`smpReady, this`cells
      ensures Serving(held) && cells.Keys == old(cells).Keys
      ensures ServedAll(requests, trace) && trace[0] == ([], old(cells)) && trace[|requests|] == (held, cells)
      ensures old(Coalesced(cells)) ==> Coalesced(cells)
    {
      held, trace := [], [([], cells)];
      for i := 0 to |requests|
        invariant |trace| == i + 1 && trace[0] == ([], old(cells)) && trace[i] == (held, cells)
        invariant forall j {:trigger requests[j]} :: 0 <= j < i ==> Served(requests[j], trace[j].0, trace[j + 1].0, trace[j].1)
        invariant Serving(held) && cells.Keys == old(cells).Keys && (old(Coalesced(cells)) ==> Coalesced(cells))
        invariant smpReady ==> forall j :: i <= j < |requests| ==> requests[j] != Ready
      {
        assert RequestOk(requests[i]);
        match requests[i] {
          case Ready => InitPercpu();
          case Take(cpu, order, flags) => held := ServeTake(cpu, order, flags, held);
          case Share(k) => if k < |held| { held := ServeShare(k, held); }
          case Give(cpu, k) => if k < |held| { held := ServeGive(cpu, k, true, held); }
          case Drop(cpu, k) => if k < |held| { held := ServeGive(cpu, k, false, held); }
        }
        trace := trace + [(held, cells)];
      }
    }
  }

  /** When no reference is out and no frame is on a stack, every frame is free. */
  lemma AllReturned(c: Core, freePages: seq<int>, stacks: seq<seq<int>>)
    requires Ok(c, freePages, stacks, []) && HeldBy(c, []) && NoStacks(stacks)
    ensures AllFreeNow(c.cells)
  {
    forall q, i | -1 <= i < CPUS ensures !OnCpuAt(c.cells, q, i) {
      if i >= 0 { assert StackOk(c.cells, stacks, i); }
    }
    forall q | q in c.cells ensures c.cells[q].owner == OnList {
      assert !HeldAt(c.cells, q) && (CpuAt(c.cells, q) ==> OnCpuAt(c.cells, q, c.cells[q].owner.cpu));
    }
  }

  /** A whole life of the allocator: start-up from a memory map, then any run. When everything was given back and the
      stacks are empty, the free blocks are those of the start again, whatever happened in between. */
  method Run(total: nat, regions: seq<Region>, table: Region, requests: seq<Request>)
      returns (a: FrameAllocator, held: seq<Block>, ghost trace: seq<(seq<Block>, Cells)>, ghost start: Cells)
    requires RegionsOk(regions, total) && table.lo < table.hi && RequestsOk(requests, false)
    ensures fresh(a) && a.Serving(held) && (forall q :: q in start <==> Usable(regions, table, q)) && a.cells.Keys == start.Keys
    ensures ServedAll(requests, trace) && trace[0] == ([], start) && trace[|requests|] == (held, a.cells)
    ensures Untouching(regions) ==> Coalesced(a.cells)
    ensures Untouching(regions) && held == [] && NoStacks(a.stacks) ==> a.cells == start
  {
    a := new FrameAllocator(total);
    a.Init(regions, table);
    start := a.cells;
    held, trace := a.Serve(requests);
    if Untouching(regions) && held == [] && NoStacks(a.stacks) {
      AllReturned(a.Zones(), a.freePages, a.stacks);
      CoalescedUnique(a.cells, start);
    }
  }

  lemma SameKeys(was: Core, c: Core, b: Block)
    requires LiveMore(was, c, b)
    ensures was.cells.Keys == c.cells.Keys
  {
    forall q ensures q in was.cells.Keys <==> q in c.cells.Keys { assert LiveAt(was, c, b, q); }
  }

  lemma ReleaseTrans(was: Core, mid: Core, c: Core, b: Block)
    requires LiveMore(mid, was, b) && LiveMore(mid, c, Nothing)
    ensures LiveMore(c, was, b)
  {
    forall q ensures LiveAt(c, was, b, q) { assert LiveAt(mid, was, b, q) && LiveAt(mid, c, Nothing, q); }
  }

  lemma CountDown(c: Core, b: Block, freePages: seq<int>, stacks: seq<seq<int>>)
    requires Ok(c, freePages, stacks, []) && IsBlock(c.cells, b) && b.owner == Caller && 0 <= b.head < |c.pages| && c.pages[b.head].refs > 1
    ensures Ok(c.(pages := c.pages[b.head := c.pages[b.head].(refs := c.pages[b.head].refs - 1)]), freePages, stacks, [])
  {
    var pages' := c.pages[b.head := c.pages[b.head].(refs := c.pages[b.head].refs - 1)];
    forall p | 0 <= p < |pages'| ensures DescAt(pages', c.cells, p) { assert DescAt(c.pages, c.cells, p); }
  }

  lemma CountUp(c: Core, b: Block, freePages: seq<int>, stacks: seq<seq<int>>)
    requires Ok(c, freePages, stacks, []) && IsBlock(c.cells, b) && b.owner == Caller && 0 <= b.head < |c.pages|
    ensures Ok(c.(pages := c.pages[b.head := c.pages[b.head].(refs := c.pages[b.head].refs + 1)]), freePages, stacks, [])
  {
    var pages' := c.pages[b.head := c.pages[b.head].(refs := c.pages[b.head].refs + 1)];
    forall p | 0 <= p < |pages'| ensures DescAt(pages', c.cells, p) { assert DescAt(c.pages, c.cells, p); }
  }

  lemma PaintTwice(cells: Cells, p: int, o: Owner, o': Owner)
    ensures Paint(Paint(cells, Block(p, 0, o)), Block(p, 0, o')) == Paint(cells, Block(p, 0, o'))
  {
  }

  // What a call hands itself and keeps aside is not the caller's.
  lemma LiveBack(a: Core, b: Core, c: Core, x: Block)
    requires LiveMore(a, b, x) && LiveMore(c, b, x)
    requires forall q :: In(q, x) ==> q in c.cells && c.cells[q].owner != Caller
    ensures LiveMore(a, c, Nothing)
  {
    forall q ensures LiveAt(a, c, Nothing, q) { assert LiveAt(a, b, x, q) && LiveAt(c, b, x, q); }
  }
}
