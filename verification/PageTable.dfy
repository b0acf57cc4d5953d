/**
 The four-level page table of mem/mmu.c (Intel SDM volume 3A, section 4.5), for operations on 4 KiB pages among
 tables that may also hold 2 MiB and 1 GiB entries. A page is named by its virtual page number, 36 bits wide.

 Every table carries its home: its level, the part of the page number that leads to it and the table that links
 to it. Homes are ghost information: the walk itself follows frames only.
 */
module PageTable {
  import opened Basics

  const SLOTS := 512
  const PAGES := 0x10_0000_0000

  /**
   `managed` says that the frame allocator knows the first frame of a large page and holds it allocated. `level` is that
   of the table a large page is in, 2 for 2 MiB and 3 for 1 GiB.
   */
  datatype Entry = Empty | Link(frame: int) | Huge(pa: int, flags: int, managed: bool, level: int) | Leaf(pa: int, flags: int)

  datatype Home = Home(level: int, prefix: int, parent: int)

  /** `free` is the frame allocator's supply, next frame first. */
  datatype Space = Space(root: int, tables: map<int, seq<Entry>>, free: seq<int>, home: map<int, Home>)

  datatype Code = Ok | NoMemory | Exists | Invalid

  /** The page number without its lowest k index fields. */
  function Prefix(v: int, k: int): int
    requires k >= 0
    decreases k, v
  {
    if k == 0 then v else Prefix(v, k - 1) / SLOTS
  }

  function Index(v: int, level: int): int
    requires level >= 1
  {
    Prefix(v, level - 1) % SLOTS
  }

  /** The four index fields of a page number, nine bits each. */
  lemma IndexIs(v: int)
    requires 0 <= v < PAGES
    ensures Index(v, 1) == v % 512 && Index(v, 2) == v / 512 % 512
    ensures Index(v, 3) == v / 0x4_0000 % 512 && Index(v, 4) == v / 0x800_0000
  {
    PrefixIs(v);
  }

  lemma PrefixIs(v: int)
    requires 0 <= v
    ensures Prefix(v, 0) == v && Prefix(v, 1) == v / 512 && Prefix(v, 2) == v / 0x4_0000 && Prefix(v, 3) == v / 0x800_0000
  {
    assert Prefix(v, 0) == v;
    assert Prefix(v, 1) == v / 512;
    assert Prefix(v, 2) == v / 512 / 512;
    assert Prefix(v, 3) == v / 0x4_0000 / 512;
  }

  predicate Blank(t: seq<Entry>) { forall i :: 0 <= i < |t| ==> t[i] == Empty }

  function NewTable(): (t: seq<Entry>)
    ensures |t| == SLOTS && Blank(t)
  {
    seq(SLOTS, _ => Empty)
  }

  // ---- The tree ------------------------------------------------------------------------------

  ghost predicate EntryOk(s: Space, f: int, i: int)
    requires f in s.tables && f in s.home && 0 <= i < |s.tables[f]|
  {
    match s.tables[f][i]
    case Empty => true
    case Link(g) => s.home[f].level > 1 && g in s.tables && g in s.home
                    && s.home[g] == Home(s.home[f].level - 1, s.home[f].prefix * SLOTS + i, f)
    case Huge(_, _, _, level) => s.home[f].level == level && (level == 2 || level == 3)
    case Leaf(_, _) => s.home[f].level == 1
  }

  ghost predicate LinkedBack(s: Space, f: int)
    requires f in s.home
  {
    var h := s.home[f];
    h.parent in s.tables && h.parent in s.home && s.home[h.parent].level == h.level + 1
    && |s.tables[h.parent]| == SLOTS && s.tables[h.parent][h.prefix % SLOTS] == Link(f)
  }

  ghost predicate TableOk(s: Space, f: int)
    requires f in s.tables
  {
    && f in s.home && 1 <= s.home[f].level <= 4 && |s.tables[f]| == SLOTS
    && (if s.home[f].level == 4 then f == s.root else LinkedBack(s, f))
    && forall i {:trigger EntryOk(s, f, i)} :: 0 <= i < SLOTS ==> EntryOk(s, f, i)
  }

  /** A tree of tables, every one linked from its parent, none of them among the free frames. */
  ghost predicate TreeOk(s: Space) {
    && s.root in s.tables && s.root in s.home && s.home[s.root].level == 4 && s.home[s.root].prefix == 0
    && s.home.Keys == s.tables.Keys
    && NoDup(s.free) && (forall f :: f in s.free ==> f !in s.tables)
    && forall f {:trigger TableOk(s, f)} :: f in s.tables ==> TableOk(s, f)
  }

  /** Table f is where the walk for page v looks at this level. */
  ghost predicate Here(s: Space, f: int, level: int, v: int) {
    f in s.tables && f in s.home && 1 <= level <= 4 && s.home[f].level == level && s.home[f].prefix == Prefix(v, level)
    && |s.tables[f]| == SLOTS
  }

  /** What the processor's walk from a table finds for a page. */
  function Walk(s: Space, f: int, level: int, v: int): Entry
    requires level >= 1
    decreases level, f
  {
    if f !in s.tables || Index(v, level) >= |s.tables[f]| then Empty
    else
      var e := s.tables[f][Index(v, level)];
      if e.Link? && level > 1 then Walk(s, e.frame, level - 1, v) else e
  }

  /** The flat meaning of the tables: page number to entry. */
  function Translate(s: Space, v: int): Entry { Walk(s, s.root, 4, v) }

  // ---- Elementary updates --------------------------------------------------------------------

  function SetEntry(s: Space, f: int, i: int, e: Entry): Space
    requires f in s.tables && 0 <= i < |s.tables[f]|
  {
    s.(tables := s.tables[f := s.tables[f][i := e]])
  }

  /** The next free frame becomes an empty table below entry i of table f. */
  function LinkNew(s: Space, f: int, i: int): Space
    requires f in s.tables && f in s.home && 0 <= i < |s.tables[f]| && s.free != []
  {
    var g := s.free[0];
    Space(s.root, s.tables[g := NewTable()][f := s.tables[f][i := Link(g)]], s.free[1..],
          s.home[g := Home(s.home[f].level - 1, s.home[f].prefix * SLOTS + i, f)])
  }

  /** The table g below entry i of table f is unlinked and its frame freed. */
  function Unlink(s: Space, f: int, i: int, g: int): Space
    requires f in s.tables && 0 <= i < |s.tables[f]|
  {
    Space(s.root, s.tables[f := s.tables[f][i := Empty]] - {g}, [g] + s.free, s.home - {g})
  }

  /** Unlinking a table that was just linked restores everything, the order of the free frames included. */
  lemma UnlinkLink(s: Space, f: int, i: int)
    requires TreeOk(s) && f in s.tables && 0 <= i < |s.tables[f]| && s.tables[f][i] == Empty && s.free != []
    ensures f in LinkNew(s, f, i).tables && |LinkNew(s, f, i).tables[f]| == |s.tables[f]|
    ensures Unlink(LinkNew(s, f, i), f, i, s.free[0]) == s
  {
    var g := s.free[0];
    assert g in s.free;
    var s1 := LinkNew(s, f, i);
    assert s1.tables[f][i := Empty] == s.tables[f];
    assert s1.tables[f := s1.tables[f][i := Empty]] - {g} == s.tables;
    assert [g] + s.free[1..] == s.free;
    assert s1.home - {g} == s.home;
  }

  lemma SetKeeps(s: Space, f: int, i: int, e: Entry)
    requires TreeOk(s) && f in s.tables && 0 <= i < SLOTS && |s.tables[f]| == SLOTS && f in s.home
    requires !s.tables[f][i].Link? && !e.Link?
    requires e.Leaf? ==> s.home[f].level == 1
    requires e.Huge? ==> s.home[f].level == e.level && (e.level == 2 || e.level == 3)
    ensures TreeOk(SetEntry(s, f, i, e))
  {
    var s' := SetEntry(s, f, i, e);
    forall h | h in s'.tables ensures TableOk(s', h) {
      assert TableOk(s, h);
      forall j | 0 <= j < SLOTS ensures EntryOk(s', h, j) { assert EntryOk(s, h, j); }
    }
  }

  lemma SlotOf(p: int, i: int)
    requires 0 <= i < SLOTS
    ensures (p * SLOTS + i) % SLOTS == i
  {
  }

  lemma LinkTableOk(s: Space, f: int, i: int, h: int)
    requires TreeOk(s) && f in s.tables && 0 <= i < SLOTS && |s.tables[f]| == SLOTS && f in s.home && s.home[f].level > 1
    requires s.tables[f][i] == Empty && s.free != [] && s.free[0] !in s.tables && h in LinkNew(s, f, i).tables
    ensures TableOk(LinkNew(s, f, i), h)
  {
    var s', g := LinkNew(s, f, i), s.free[0];
    assert TableOk(s, f);
    if h == g {
      SlotOf(s.home[f].prefix, i);
    } else {
      assert TableOk(s, h);
      forall j | 0 <= j < SLOTS ensures EntryOk(s', h, j) { assert EntryOk(s, h, j); }
    }
  }

  lemma LinkKeeps(s: Space, f: int, i: int)
    requires TreeOk(s) && f in s.tables && 0 <= i < SLOTS && |s.tables[f]| == SLOTS && f in s.home && s.home[f].level > 1
    requires s.tables[f][i] == Empty && s.free != []
    ensures TreeOk(LinkNew(s, f, i))
  {
    var s' := LinkNew(s, f, i);
    assert s.free[0] in s.free;
    forall h | h in s'.tables ensures TableOk(s', h) { LinkTableOk(s, f, i, h); }
    forall x | x in s'.free ensures x !in s'.tables { assert x in s.free; }
  }

  lemma UnlinkKeeps(s: Space, f: int, i: int, g: int)
    requires TreeOk(s) && f in s.tables && 0 <= i < SLOTS && |s.tables[f]| == SLOTS && s.tables[f][i] == Link(g)
    requires g in s.tables && Blank(s.tables[g])
    ensures f != g && TreeOk(Unlink(s, f, i, g))
  {
    var s' := Unlink(s, f, i, g);
    assert TableOk(s, f) && TableOk(s, g) && EntryOk(s, f, i);
    forall h | h in s'.tables ensures TableOk(s', h) {
      assert TableOk(s, h);
      forall j | 0 <= j < SLOTS ensures EntryOk(s', h, j) { assert EntryOk(s, h, j); }
    }
  }

  /** Below a linked entry the walk goes on at the table that belongs there. */
  lemma StepDown(s: Space, f: int, level: int, v: int)
    requires TreeOk(s) && Here(s, f, level, v) && s.tables[f][Index(v, level)].Link?
    ensures level > 1 && Here(s, s.tables[f][Index(v, level)].frame, level - 1, v)
    ensures s.tables[f][Index(v, level)].frame != f
  {
    assert TableOk(s, f) && EntryOk(s, f, Index(v, level));
    var g := s.tables[f][Index(v, level)].frame;
    assert TableOk(s, g);
  }

  lemma Shorter(a: int, n: int)
    requires 0 <= a < SLOTS * n
    ensures 0 <= a / SLOTS < n
  {
  }

  lemma WholePrefix(v: int)
    requires 0 <= v < PAGES
    ensures Prefix(v, 4) == 0
  {
    var a, b, c, d := Prefix(v, 1), Prefix(v, 2), Prefix(v, 3), Prefix(v, 4);
    assert Prefix(v, 0) == v;
    assert a == Prefix(v, 0) / SLOTS;
    Shorter(v, 0x800_0000);
    assert b == a / SLOTS;
    Shorter(a, 0x4_0000);
    assert c == b / SLOTS;
    Shorter(b, 0x200);
    assert d == c / SLOTS;
    Shorter(c, 1);
  }

  lemma AtRoot(s: Space, v: int)
    requires TreeOk(s) && 0 <= v < PAGES
    ensures Here(s, s.root, 4, v)
  {
    assert TableOk(s, s.root);
    WholePrefix(v);
  }

  // ---- What the updates do to walks ----------------------------------------------------------

  /** An entry covers the pages whose number starts with the entry's position. */
  ghost predicate Covers(s: Space, f: int, i: int, v: int)
    requires f in s.home && s.home[f].level >= 1
  {
    Prefix(v, s.home[f].level - 1) == s.home[f].prefix * SLOTS + i
  }

  lemma {:induction false} SetWalkOther(s: Space, f: int, i: int, e: Entry, x: int, level: int, w: int)
    requires TreeOk(s) && f in s.tables && f in s.home && 0 <= i < |s.tables[f]| && s.home[f].level >= 1
    requires !s.tables[f][i].Link? && !e.Link? && Here(s, x, level, w) && !Covers(s, f, i, w)
    ensures Walk(SetEntry(s, f, i, e), x, level, w) == Walk(s, x, level, w)
    decreases level
  {
    var j := Index(w, level);
    if s.tables[x][j].Link? {
      StepDown(s, x, level, w);
      SetWalkOther(s, f, i, e, s.tables[x][j].frame, level - 1, w);
    }
  }

  lemma {:induction false} LinkWalk(s: Space, f: int, i: int, x: int, level: int, w: int)
    requires TreeOk(s) && f in s.tables && f in s.home && 0 <= i < |s.tables[f]|
    requires s.tables[f][i] == Empty && s.free != [] && Here(s, x, level, w) && s.home[f].level > 1
    ensures Walk(LinkNew(s, f, i), x, level, w) == Walk(s, x, level, w)
    decreases level
  {
    var j, g := Index(w, level), s.free[0];
    assert g in s.free;
    var s' := LinkNew(s, f, i);
    if s.tables[x][j].Link? {
      StepDown(s, x, level, w);
      LinkWalk(s, f, i, s.tables[x][j].frame, level - 1, w);
    } else if x == f && j == i {
      assert s'.tables[g] == NewTable();
      assert Walk(s', g, level - 1, w) == s'.tables[g][Index(w, level - 1)];
    }
  }

  /** Unlinking an empty table changes no walk. */
  lemma {:induction false} UnlinkWalk(s: Space, f: int, i: int, g: int, x: int, level: int, w: int)
    requires TreeOk(s) && f in s.tables && 0 <= i < |s.tables[f]| && s.tables[f][i] == Link(g) && f != g
    requires g in s.tables && Blank(s.tables[g]) && Here(s, x, level, w) && x != g
    ensures Walk(Unlink(s, f, i, g), x, level, w) == Walk(s, x, level, w)
    decreases level
  {
    var j := Index(w, level);
    if s.tables[x][j].Link? {
      StepDown(s, x, level, w);
      var y := s.tables[x][j].frame;
      assert TableOk(s, f) && TableOk(s, x) && EntryOk(s, f, i) && EntryOk(s, x, j);
      if y != g {
        UnlinkWalk(s, f, i, g, y, level - 1, w);
      } else {
        assert x == f && j == i;
        assert s.tables[g][Index(w, level - 1)] == Empty;
      }
    }
  }

  // ---- Mapping a page ------------------------------------------------------------------------

  /** How a map of page v ends, seen from table f: the tables still to be made must all be available. */
  function Outcome(s: Space, f: int, level: int, v: int): Code
    requires level >= 1
    decreases level, f
  {
    if level == 1 || f !in s.tables || Index(v, level) >= |s.tables[f]| then Ok
    else
      match s.tables[f][Index(v, level)]
      case Empty => if |s.free| < level - 1 then NoMemory else Ok
      case Link(g) => Outcome(s, g, level - 1, v)
      case _ => Exists
  }

  /** One level down on the way to page v, making the table there if the entry is empty. */
  ghost predicate Stepped(s: Space, f: int, level: int, v: int, s': Space, g: int, made: bool) {
    && Here(s, f, level, v) && level > 1
    && var i := Index(v, level);
      if made then s.tables[f][i] == Empty && s.free != [] && g == s.free[0] && s' == LinkNew(s, f, i)
      else s.tables[f][i] == Link(g) && s' == s
  }

  lemma SteppedHere(s: Space, f: int, level: int, v: int, s': Space, g: int, made: bool)
    requires TreeOk(s) && Stepped(s, f, level, v, s', g, made)
    ensures TreeOk(s') && Here(s', g, level - 1, v) && f != g && f in s'.tables && |s'.tables[f]| == SLOTS
    ensures s'.tables[f][Index(v, level)] == Link(g)
    ensures made ==> Blank(s'.tables[g]) && Unlink(s', f, Index(v, level), g) == s
  {
    var i := Index(v, level);
    if made {
      assert g in s.free;
      LinkKeeps(s, f, i);
      UnlinkLink(s, f, i);
    } else {
      StepDown(s, f, level, v);
    }
  }

  /** The whole map below table f, when it succeeds. */
  ghost function Grow(s: Space, f: int, level: int, v: int, e: Entry): Space
    requires TreeOk(s) && Here(s, f, level, v) && Outcome(s, f, level, v) == Ok
    decreases level, f
  {
    var i := Index(v, level);
    if level == 1 then SetEntry(s, f, i, e)
    else if s.tables[f][i].Link? then
      StepDown(s, f, level, v);
      Grow(s, s.tables[f][i].frame, level - 1, v, e)
    else
      assert Stepped(s, f, level, v, LinkNew(s, f, i), s.free[0], true);
      SteppedHere(s, f, level, v, LinkNew(s, f, i), s.free[0], true);
      Grow(LinkNew(s, f, i), s.free[0], level - 1, v, e)
  }

  lemma SteppedGrow(s: Space, f: int, level: int, v: int, s': Space, g: int, made: bool, e: Entry)
    requires TreeOk(s) && Stepped(s, f, level, v, s', g, made)
    ensures TreeOk(s') && Here(s', g, level - 1, v) && Outcome(s, f, level, v) == Outcome(s', g, level - 1, v)
    ensures Outcome(s, f, level, v) == Ok ==> Grow(s, f, level, v, e) == Grow(s', g, level - 1, v, e)
  {
    SteppedHere(s, f, level, v, s', g, made);
  }

  ghost predicate KeptAt(s: Space, s': Space, x: int)
    requires x in s.tables && x in s.home
  {
    x in s'.tables && x in s'.home && s'.tables[x] == s.tables[x] && s'.home[x] == s.home[x]
  }

  /** Nothing has happened to the tables above a level. */
  ghost predicate Kept(s: Space, s': Space, level: int) {
    forall x {:trigger KeptAt(s, s', x)} :: x in s.tables && x in s.home && s.home[x].level > level ==> KeptAt(s, s', x)
  }

  lemma SteppedKept(s: Space, f: int, level: int, v: int, s1: Space, g: int, made: bool, s': Space)
    requires TreeOk(s) && Stepped(s, f, level, v, s1, g, made) && Kept(s1, s', level - 1)
    ensures Kept(s, s', level) && Here(s', f, level, v) && s'.tables[f][Index(v, level)] == Link(g)
  {
    SteppedHere(s, f, level, v, s1, g, made);
    assert g in s.free || !made;
    forall x | x in s.tables && x in s.home && s.home[x].level > level ensures KeptAt(s, s', x) { assert KeptAt(s1, s', x); }
    assert KeptAt(s1, s', f);
  }

  ghost predicate Mapped(s: Space, f: int, level: int, v: int, e: Entry, s': Space) {
    TreeOk(s') && s'.root == s.root && Kept(s, s', level) && Here(s', f, level, v) && Walk(s', f, level, v) == e
  }

  lemma MappedAbove(s: Space, f: int, level: int, v: int, s1: Space, g: int, made: bool, e: Entry, s': Space)
    requires TreeOk(s) && Stepped(s, f, level, v, s1, g, made) && Mapped(s1, g, level - 1, v, e, s')
    ensures Mapped(s, f, level, v, e, s')
  {
    SteppedKept(s, f, level, v, s1, g, made, s');
  }

  /** A map keeps the tree, leaves the tables above alone and makes its page translate to the new entry. */
  lemma {:induction false} GrowKeeps(s: Space, f: int, level: int, v: int, e: Entry)
    requires TreeOk(s) && Here(s, f, level, v) && Outcome(s, f, level, v) == Ok && e.Leaf?
    ensures Mapped(s, f, level, v, e, Grow(s, f, level, v, e))
    decreases level
  {
    var i := Index(v, level);
    if level == 1 {
      assert TableOk(s, f) && EntryOk(s, f, i);
      SetKeeps(s, f, i, e);
      assert Mapped(s, f, level, v, e, SetEntry(s, f, i, e));
    } else {
      var made := !s.tables[f][i].Link?;
      var g := if made then s.free[0] else s.tables[f][i].frame;
      var s1 := if made then LinkNew(s, f, i) else s;
      SteppedGrow(s, f, level, v, s1, g, made, e);
      GrowKeeps(s1, g, level - 1, v, e);
      MappedAbove(s, f, level, v, s1, g, made, e, Grow(s1, g, level - 1, v, e));
    }
  }

  /** A map changes the translation of no other page. */
  lemma {:induction false} GrowOther(s: Space, f: int, level: int, v: int, e: Entry, w: int)
    requires TreeOk(s) && Here(s, f, level, v) && Outcome(s, f, level, v) == Ok && e.Leaf? && 0 <= w < PAGES && w != v
    ensures Translate(Grow(s, f, level, v, e), w) == Translate(s, w)
    decreases level
  {
    var i := Index(v, level);
    AtRoot(s, w);
    if level == 1 {
      assert TableOk(s, f) && EntryOk(s, f, i);
      SetWalkOther(s, f, i, e, s.root, 4, w);
    } else {
      var made := !s.tables[f][i].Link?;
      var g := if made then s.free[0] else s.tables[f][i].frame;
      var s1 := if made then LinkNew(s, f, i) else s;
      SteppedGrow(s, f, level, v, s1, g, made, e);
      if made { LinkWalk(s, f, i, s.root, 4, w); }
      GrowOther(s1, g, level - 1, v, e, w);
    }
  }

  // ---- Unmapping a page ----------------------------------------------------------------------

  /** Only tables of the lower half of the address space are given back. */
  predicate UserHalf(v: int) { Prefix(v, 3) < 256 }

  ghost predicate Cleared(s: Space, f: int, level: int, v: int, s': Space, emptied: bool) {
    TreeOk(s') && s'.root == s.root && Kept(s, s', level) && Here(s', f, level, v) && (emptied ==> Blank(s'.tables[f]))
  }

  /** The entry that an unmap clears: a 4 KiB entry, present or not, or a 2 MiB page of allocated frames. */
  predicate Clears(level: int, e: Entry) { level == 1 || (level == 2 && e.Huge? && e.managed) }

  lemma ClearKeeps(s: Space, f: int, level: int, v: int, i: int)
    requires TreeOk(s) && Here(s, f, level, v) && i == Index(v, level) && Clears(level, s.tables[f][i])
    ensures Cleared(s, f, level, v, SetEntry(s, f, i, Empty), Blank(SetEntry(s, f, i, Empty).tables[f]))
  {
    assert TableOk(s, f) && EntryOk(s, f, i);
    SetKeeps(s, f, i, Empty);
  }

  lemma ClearedAbove(s: Space, f: int, level: int, v: int, g: int, s': Space, emptied: bool)
    requires TreeOk(s) && Stepped(s, f, level, v, s, g, false) && Cleared(s, g, level - 1, v, s', emptied)
    ensures Cleared(s, f, level, v, s', false) && s'.tables[f][Index(v, level)] == Link(g) && f != g
  {
    SteppedKept(s, f, level, v, s, g, false, s');
    StepDown(s, f, level, v);
  }

  lemma PruneKeeps(s: Space, f: int, level: int, v: int, g: int, s1: Space)
    requires TreeOk(s) && Stepped(s, f, level, v, s, g, false) && Cleared(s, g, level - 1, v, s1, true)
    ensures Here(s1, f, level, v) && s1.tables[f][Index(v, level)] == Link(g) && f != g
    ensures var s2 := Unlink(s1, f, Index(v, level), g);
      f in s2.tables && Cleared(s, f, level, v, s2, Blank(s2.tables[f]))
  {
    ClearedAbove(s, f, level, v, g, s1, true);
    var i := Index(v, level);
    var s2 := Unlink(s1, f, i, g);
    UnlinkKeeps(s1, f, i, g);
    forall x | x in s.tables && x in s.home && s.home[x].level > level ensures KeptAt(s, s2, x) { assert KeptAt(s, s1, x); }
  }

  /** The whole unmap below table f, and whether it leaves f empty. */
  ghost function Shrink(s: Space, f: int, level: int, v: int): (r: (Space, bool))
    requires TreeOk(s) && Here(s, f, level, v)
    ensures Cleared(s, f, level, v, r.0, r.1)
    decreases level, f
  {
    var i := Index(v, level);
    var e := s.tables[f][i];
    if Clears(level, e) then
      ClearKeeps(s, f, level, v, i);
      var s' := SetEntry(s, f, i, Empty);
      (s', Blank(s'.tables[f]))
    else if e.Link? then
      StepDown(s, f, level, v);
      var r := Shrink(s, e.frame, level - 1, v);
      if r.1 && UserHalf(v) then
        PruneKeeps(s, f, level, v, e.frame, r.0);
        var s' := Unlink(r.0, f, i, e.frame);
        (s', Blank(s'.tables[f]))
      else
        ClearedAbove(s, f, level, v, e.frame, r.0, r.1);
        (r.0, false)
    else (s, false)
  }

  /** The level at which the walk for a page ends. */
  function Ends(s: Space, f: int, level: int, v: int): (k: int)
    requires level >= 1
    ensures 1 <= k <= level
    decreases level, f
  {
    if level > 1 && f in s.tables && Index(v, level) < |s.tables[f]| && s.tables[f][Index(v, level)].Link?
    then Ends(s, s.tables[f][Index(v, level)].frame, level - 1, v)
    else level
  }

  predicate Removes(s: Space, f: int, level: int, v: int)
    requires level >= 1
  {
    Clears(Ends(s, f, level, v), Walk(s, f, level, v))
  }

  /** Two pages behind the same entry. */
  predicate SameEntry(level: int, v: int, w: int)
    requires level >= 1
  {
    Prefix(v, level - 1) == Prefix(w, level - 1)
  }

  lemma {:induction false} SameAbove(low: int, level: int, v: int, w: int)
    requires 1 <= low <= level && SameEntry(low, v, w)
    ensures SameEntry(level, v, w) && Prefix(v, level) == Prefix(w, level)
    decreases level
  {
    if low < level { SameAbove(low, level - 1, v, w); }
  }

  /** Every page behind the entry that is cleared becomes unmapped. */
  lemma {:induction false} ShrinkClears(s: Space, f: int, level: int, v: int, w: int)
    requires TreeOk(s) && Here(s, f, level, v) && Removes(s, f, level, v) && SameEntry(Ends(s, f, level, v), v, w)
    ensures Walk(Shrink(s, f, level, v).0, f, level, w) == Empty
    decreases level
  {
    var i := Index(v, level);
    SameAbove(Ends(s, f, level, v), level, v, w);
    assert Index(w, level) == i;
    if s.tables[f][i].Link? {
      StepDown(s, f, level, v);
      var g := s.tables[f][i].frame;
      ShrinkClears(s, g, level - 1, v, w);
      var r := Shrink(s, g, level - 1, v);
      ClearedAbove(s, f, level, v, g, r.0, r.1);
      var s' := Shrink(s, f, level, v).0;
      assert s' == if r.1 && UserHalf(v) then Unlink(r.0, f, i, g) else r.0;
      assert s'.tables[f][i] == if r.1 && UserHalf(v) then Empty else Link(g);
    } else {
      assert Shrink(s, f, level, v).0 == SetEntry(s, f, i, Empty);
    }
  }

  /** No other page's translation changes. */
  lemma {:induction false} ShrinkOther(s: Space, f: int, level: int, v: int, w: int)
    requires TreeOk(s) && Here(s, f, level, v) && 0 <= w < PAGES
    requires !Removes(s, f, level, v) || !SameEntry(Ends(s, f, level, v), v, w)
    ensures Translate(Shrink(s, f, level, v).0, w) == Translate(s, w)
    decreases level
  {
    var i := Index(v, level);
    AtRoot(s, w);
    assert TableOk(s, f) && EntryOk(s, f, i);
    if s.tables[f][i].Link? {
      StepDown(s, f, level, v);
      var g := s.tables[f][i].frame;
      ShrinkOther(s, g, level - 1, v, w);
      var r := Shrink(s, g, level - 1, v);
      ClearedAbove(s, f, level, v, g, r.0, r.1);
      if r.1 && UserHalf(v) {
        AtRoot(r.0, w);
        UnlinkWalk(r.0, f, i, g, s.root, 4, w);
      }
    } else if Clears(level, s.tables[f][i]) {
      SetWalkOther(s, f, i, Empty, s.root, 4, w);
    }
  }

  // ---- No empty tables -----------------------------------------------------------------------

  ghost predicate UserTable(h: Home) { 1 <= h.level <= 3 && Prefix(h.prefix, 3 - h.level) < 256 }

  ghost predicate TrimAt(s: Space, f: int)
    requires f in s.tables
  {
    f in s.home && UserTable(s.home[f]) ==> !Blank(s.tables[f])
  }

  ghost predicate TrimBut(s: Space, x: int) {
    forall f {:trigger TrimAt(s, f)} :: f in s.tables && f != x ==> TrimAt(s, f)
  }

  /** No table of the lower half is empty. */
  ghost predicate Trim(s: Space) { forall f {:trigger TrimAt(s, f)} :: f in s.tables ==> TrimAt(s, f) }

  lemma {:induction false} PrefixAdd(v: int, a: int, b: int)
    requires a >= 0 && b >= 0
    ensures Prefix(Prefix(v, a), b) == Prefix(v, a + b)
  {
    if b > 0 { PrefixAdd(v, a, b - 1); }
  }

  lemma {:induction false} GrowTrim(s: Space, f: int, level: int, v: int, e: Entry)
    requires TreeOk(s) && Here(s, f, level, v) && Outcome(s, f, level, v) == Ok && e.Leaf? && TrimBut(s, f)
    ensures Trim(Grow(s, f, level, v, e))
    decreases level
  {
    var i := Index(v, level);
    if level == 1 {
      var s' := SetEntry(s, f, i, e);
      assert s'.tables[f][i] != Empty;
      forall h | h in s'.tables ensures TrimAt(s', h) { if h != f { assert TrimAt(s, h); } }
    } else {
      var made := !s.tables[f][i].Link?;
      var g := if made then s.free[0] else s.tables[f][i].frame;
      var s1 := if made then LinkNew(s, f, i) else s;
      SteppedGrow(s, f, level, v, s1, g, made, e);
      assert f in s1.tables && s1.tables[f][i] != Empty by { SteppedHere(s, f, level, v, s1, g, made); }
      forall h | h in s1.tables && h != g ensures TrimAt(s1, h) { if h != f { assert TrimAt(s, h); } }
      GrowTrim(s1, g, level - 1, v, e);
    }
  }

  lemma {:induction false} ShrinkTrim(s: Space, f: int, level: int, v: int)
    requires TreeOk(s) && Here(s, f, level, v) && Trim(s)
    ensures var r := Shrink(s, f, level, v); if r.1 && UserHalf(v) then TrimBut(r.0, f) else Trim(r.0)
    decreases level
  {
    var i := Index(v, level);
    var e := s.tables[f][i];
    if level <= 3 { PrefixAdd(v, level, 3 - level); }
    if Clears(level, e) {
      var s' := SetEntry(s, f, i, Empty);
      forall h | h in s'.tables && h != f ensures TrimAt(s', h) { assert TrimAt(s, h); }
      assert !(Blank(s'.tables[f]) && UserHalf(v)) ==> TrimAt(s', f);
    } else if e.Link? {
      StepDown(s, f, level, v);
      ShrinkTrim(s, e.frame, level - 1, v);
      var r := Shrink(s, e.frame, level - 1, v);
      if r.1 && UserHalf(v) {
        PruneKeeps(s, f, level, v, e.frame, r.0);
        var s' := Unlink(r.0, f, i, e.frame);
        forall h | h in s'.tables && h != f ensures TrimAt(s', h) { assert TrimAt(r.0, h); }
        assert !(Blank(s'.tables[f]) && UserHalf(v)) ==> TrimAt(s', f);
      }
    }
  }

  /** Unmapping undoes mapping: every table, every entry and the order of the free frames are as before. */
  lemma {:induction false} ShrinkGrow(s: Space, f: int, level: int, v: int, e: Entry)
    requires TreeOk(s) && Here(s, f, level, v) && Outcome(s, f, level, v) == Ok && e.Leaf? && TrimBut(s, f)
    requires UserHalf(v) && Walk(s, f, level, v) == Empty
    ensures TreeOk(Grow(s, f, level, v, e)) && Here(Grow(s, f, level, v, e), f, level, v)
    ensures Shrink(Grow(s, f, level, v, e), f, level, v) == (s, Blank(s.tables[f]))
    decreases level
  {
    var i := Index(v, level);
    GrowKeeps(s, f, level, v, e);
    var s' := Grow(s, f, level, v, e);
    if level == 1 {
      assert s'.tables[f][i := Empty] == s.tables[f];
      assert SetEntry(s', f, i, Empty).tables == s.tables;
    } else {
      var made := !s.tables[f][i].Link?;
      var g := if made then s.free[0] else s.tables[f][i].frame;
      var s1 := if made then LinkNew(s, f, i) else s;
      SteppedGrow(s, f, level, v, s1, g, made, e);
      SteppedHere(s, f, level, v, s1, g, made);
      forall h | h in s1.tables && h != g ensures TrimAt(s1, h) { if h != f { assert TrimAt(s, h); } }
      ShrinkGrow(s1, g, level - 1, v, e);
      GrowKeeps(s1, g, level - 1, v, e);
      assert s' == Grow(s1, g, level - 1, v, e);
      SteppedKept(s, f, level, v, s1, g, made, s');
      PrefixAdd(v, level - 1, 4 - level);
      if !made { assert TrimAt(s, g); }
    }
  }

  // ---- Changing the protection of a page -----------------------------------------------------

  /** The table in which the walk for a page ends. */
  function Last(s: Space, f: int, level: int, v: int): int
    requires level >= 1
    decreases level, f
  {
    if level > 1 && f in s.tables && Index(v, level) < |s.tables[f]| && s.tables[f][Index(v, level)].Link?
    then Last(s, s.tables[f][Index(v, level)].frame, level - 1, v)
    else f
  }

  lemma {:induction false} LastHere(s: Space, f: int, level: int, v: int)
    requires TreeOk(s) && Here(s, f, level, v)
    ensures var t, k := Last(s, f, level, v), Ends(s, f, level, v);
      1 <= k <= level && Here(s, t, k, v) && !s.tables[t][Index(v, k)].Link? && Walk(s, f, level, v) == s.tables[t][Index(v, k)]
    decreases level
  {
    assert TableOk(s, f) && EntryOk(s, f, Index(v, level));
    if s.tables[f][Index(v, level)].Link? {
      StepDown(s, f, level, v);
      LastHere(s, s.tables[f][Index(v, level)].frame, level - 1, v);
    }
  }

  predicate Protectable(level: int, e: Entry) { (level == 1 && e.Leaf?) || (level == 2 && e.Huge?) }

  function WithFlags(e: Entry, flags: int): Entry {
    match e
    case Leaf(pa, _) => Leaf(pa, flags)
    case Huge(pa, _, managed, level) => Huge(pa, flags, managed, level)
    case _ => e
  }

  ghost function Protect(s: Space, v: int, flags: int): Space
    requires TreeOk(s) && 0 <= v < PAGES
  {
    AtRoot(s, v);
    LastHere(s, s.root, 4, v);
    var k := Ends(s, s.root, 4, v);
    if Protectable(k, Translate(s, v)) then SetEntry(s, Last(s, s.root, 4, v), Index(v, k), WithFlags(Translate(s, v), flags)) else s
  }

  lemma {:induction false} SetWalkSame(s: Space, f: int, level: int, v: int, e: Entry, w: int)
    requires TreeOk(s) && Here(s, f, level, v) && !e.Link? && SameEntry(Ends(s, f, level, v), v, w)
    ensures var t, k := Last(s, f, level, v), Ends(s, f, level, v);
      Here(s, t, k, v) && s.home[t].level <= level && Walk(s, f, level, w) == Walk(s, f, level, v)
      && Walk(SetEntry(s, t, Index(v, k), e), f, level, w) == e
    decreases level
  {
    LastHere(s, f, level, v);
    SameAbove(Ends(s, f, level, v), level, v, w);
    if s.tables[f][Index(v, level)].Link? {
      StepDown(s, f, level, v);
      var g := s.tables[f][Index(v, level)].frame;
      SetWalkSame(s, g, level - 1, v, e, w);
    }
  }

  // ---- The operations as a whole -------------------------------------------------------------

  ghost function Map(s: Space, v: int, e: Entry): Space
    requires TreeOk(s) && 0 <= v < PAGES
  {
    AtRoot(s, v);
    if Outcome(s, s.root, 4, v) == Ok then Grow(s, s.root, 4, v, e) else s
  }

  ghost function Unmap(s: Space, v: int): Space
    requires TreeOk(s) && 0 <= v < PAGES
  {
    AtRoot(s, v);
    Shrink(s, s.root, 4, v).0
  }

  function Depth(s: Space, v: int): int { Ends(s, s.root, 4, v) }

  /** Every frame the address space or the allocator has. */
  ghost function Frames(s: Space): set<int> { s.tables.Keys + set f | f in s.free }

  ghost predicate Sound(s: Space) { TreeOk(s) && Trim(s) }

  lemma LinkFrames(s: Space, f: int, i: int)
    requires f in s.tables && 0 <= i < |s.tables[f]| && f in s.home && s.free != []
    ensures Frames(LinkNew(s, f, i)) == Frames(s)
  {
    assert s.free == [s.free[0]] + s.free[1..];
    assert LinkNew(s, f, i).tables.Keys == s.tables.Keys + {s.free[0]};
  }

  lemma {:induction false} GrowFrames(s: Space, f: int, level: int, v: int, e: Entry)
    requires TreeOk(s) && Here(s, f, level, v) && Outcome(s, f, level, v) == Ok
    ensures Frames(Grow(s, f, level, v, e)) == Frames(s)
    decreases level
  {
    var i := Index(v, level);
    if level > 1 {
      var made := !s.tables[f][i].Link?;
      var g := if made then s.free[0] else s.tables[f][i].frame;
      var s1 := if made then LinkNew(s, f, i) else s;
      SteppedGrow(s, f, level, v, s1, g, made, e);
      GrowFrames(s1, g, level - 1, v, e);
      if made { LinkFrames(s, f, i); }
    }
  }

  lemma {:induction false} ShrinkFrames(s: Space, f: int, level: int, v: int)
    requires TreeOk(s) && Here(s, f, level, v)
    ensures Frames(Shrink(s, f, level, v).0) == Frames(s)
    decreases level
  {
    var i := Index(v, level);
    var e := s.tables[f][i];
    if !Clears(level, e) && e.Link? {
      StepDown(s, f, level, v);
      ShrinkFrames(s, e.frame, level - 1, v);
      var r := Shrink(s, e.frame, level - 1, v);
      if r.1 && UserHalf(v) {
        ClearedAbove(s, f, level, v, e.frame, r.0, r.1);
        assert Frames(Unlink(r.0, f, i, e.frame)) == Frames(r.0);
      }
    }
  }

  /** A map that succeeds changes the flat translation at its page only; one that fails changes nothing at all. */
  lemma MapRefines(s: Space, v: int, e: Entry, w: int)
    requires Sound(s) && 0 <= v < PAGES && 0 <= w < PAGES && e.Leaf?
    ensures Sound(Map(s, v, e)) && Frames(Map(s, v, e)) == Frames(s)
    ensures Outcome(s, s.root, 4, v) == Ok ==> Translate(Map(s, v, e), w) == if w == v then e else Translate(s, w)
    ensures Outcome(s, s.root, 4, v) != Ok ==> Map(s, v, e) == s
  {
    AtRoot(s, v);
    if Outcome(s, s.root, 4, v) == Ok {
      GrowKeeps(s, s.root, 4, v, e);
      GrowTrim(s, s.root, 4, v, e);
      GrowFrames(s, s.root, 4, v, e);
      if w != v { GrowOther(s, s.root, 4, v, e, w); }
    }
  }

  lemma {:induction false} OutcomeEnds(s: Space, f: int, level: int, v: int)
    requires TreeOk(s) && Here(s, f, level, v)
    ensures Outcome(s, f, level, v) == if Walk(s, f, level, v).Huge? then Exists
                                       else if |s.free| < Ends(s, f, level, v) - 1 then NoMemory else Ok
    decreases level
  {
    assert TableOk(s, f) && EntryOk(s, f, Index(v, level));
    if s.tables[f][Index(v, level)].Link? {
      StepDown(s, f, level, v);
      OutcomeEnds(s, s.tables[f][Index(v, level)].frame, level - 1, v);
    }
  }

  /** A map is refused if and only if its page is part of a large one, or there are fewer free frames than tables are
      missing on the way. */
  lemma OutcomeIff(s: Space, v: int)
    requires TreeOk(s) && 0 <= v < PAGES
    ensures Outcome(s, s.root, 4, v) == Exists <==> Translate(s, v).Huge?
    ensures Outcome(s, s.root, 4, v) == NoMemory <==> !Translate(s, v).Huge? && |s.free| < Depth(s, v) - 1
    ensures Outcome(s, s.root, 4, v) != Invalid
  {
    AtRoot(s, v);
    OutcomeEnds(s, s.root, 4, v);
  }

  /** An unmap clears exactly the pages behind the entry of its page. */
  lemma UnmapRefines(s: Space, v: int, w: int)
    requires Sound(s) && 0 <= v < PAGES && 0 <= w < PAGES
    ensures Sound(Unmap(s, v)) && Frames(Unmap(s, v)) == Frames(s) && 1 <= Depth(s, v) <= 4
    ensures Translate(Unmap(s, v), w)
      == if Clears(Depth(s, v), Translate(s, v)) && SameEntry(Depth(s, v), v, w) then Empty else Translate(s, w)
    ensures Translate(Unmap(s, v), w)
      == if w == v && Translate(s, v).Leaf? then Empty
      else if w / 512 == v / 512 && Translate(s, v).Huge? && Translate(s, v).level == 2 && Translate(s, v).managed then Empty
      else Translate(s, w)
  {
    EntryDepth(s, v);
    PrefixIs(v);
    PrefixIs(w);
    AtRoot(s, v);
    LastHere(s, s.root, 4, v);
    ShrinkFrames(s, s.root, 4, v);
    ShrinkTrim(s, s.root, 4, v);
    var s' := Unmap(s, v);
    assert TableOk(s', s'.root);
    forall h | h in s'.tables ensures TrimAt(s', h) { if h != s.root { assert TrimAt(s', h); } }
    if Removes(s, s.root, 4, v) && SameEntry(Depth(s, v), v, w) {
      ShrinkClears(s, s.root, 4, v, w);
    } else {
      ShrinkOther(s, s.root, 4, v, w);
    }
  }

  ghost function Supply(s: Space): set<int> { set f | f in s.free }

  /** Mapping a page that was not mapped and unmapping it again gives back the very same tables and the same set of
      free frames. */
  lemma UnmapUndoesMap(s: Space, v: int, e: Entry)
    requires Sound(s) && 0 <= v < 0x8_0000_0000 && e.Leaf?
    requires Outcome(s, s.root, 4, v) == Ok && Translate(s, v) == Empty
    ensures TreeOk(Map(s, v, e))
    ensures var s' := Unmap(Map(s, v, e), v); s'.root == s.root && s'.tables == s.tables && s'.home == s.home && Supply(s') == Supply(s)
  {
    PrefixIs(v);
    AtRoot(s, v);
    GrowKeeps(s, s.root, 4, v, e);
    ShrinkGrow(s, s.root, 4, v, e);
  }

  /** A change of protection alters the flags behind one entry and nothing else: where they are asked for, frame, size and
      ownership stay. */
  lemma ProtectRefines(s: Space, v: int, flags: int, w: int)
    requires Sound(s) && 0 <= v < PAGES && 0 <= w < PAGES
    ensures Sound(Protect(s, v, flags)) && Frames(Protect(s, v, flags)) == Frames(s) && 1 <= Depth(s, v) <= 4
    ensures Translate(Protect(s, v, flags), w)
      == if w == v && Translate(s, v).Leaf? then Leaf(Translate(s, v).pa, flags)
      else if w / 512 == v / 512 && Translate(s, v).Huge? && Translate(s, v).level == 2
           then Huge(Translate(s, v).pa, flags, Translate(s, v).managed, 2)
      else Translate(s, w)
  {
    EntryDepth(s, v);
    PrefixIs(v);
    PrefixIs(w);
    AtRoot(s, v);
    AtRoot(s, w);
    LastHere(s, s.root, 4, v);
    var t, k := Last(s, s.root, 4, v), Depth(s, v);
    var e := WithFlags(Translate(s, v), flags);
    if Protectable(k, Translate(s, v)) {
      var s' := SetEntry(s, t, Index(v, k), e);
      SetKeeps(s, t, Index(v, k), e);
      assert s'.tables[t][Index(v, k)] != Empty;
      forall h | h in s'.tables ensures TrimAt(s', h) { if h != t { assert TrimAt(s, h); } }
      if SameEntry(k, v, w) { SetWalkSame(s, s.root, 4, v, e, w); } else { SetWalkOther(s, t, Index(v, k), e, s.root, 4, w); }
    }
  }

  datatype Call = MapCall(v: int, pa: int, flags: int) | UnmapCall(v: int) | ProtectCall(v: int, flags: int)

  ghost function Serve(s: Space, c: Call): (s': Space)
    requires Sound(s)
    ensures Sound(s') && Frames(s') == Frames(s)
  {
    if !(0 <= c.v < PAGES) then s
    else
      match c
      case MapCall(v, pa, flags) => MapRefines(s, v, Leaf(pa, flags), 0); Map(s, v, Leaf(pa, flags))
      case UnmapCall(v) => UnmapRefines(s, v, 0); Unmap(s, v)
      case ProtectCall(v, flags) => ProtectRefines(s, v, flags, 0); Protect(s, v, flags)
  }

  // ---- Addresses -----------------------------------------------------------------------------

  const PAGE_SIZE := 4096

  /** How many bytes an entry of some level stands for. */
  function Bytes(level: int): int { if level == 1 then PAGE_SIZE else if level == 2 then 0x20_0000 else 0x4000_0000 }

  /** The address behind an entry: the start of its frames and the place inside them. */
  function Physical(e: Entry, level: int, va: int): int {
    if e.Leaf? || e.Huge? then e.pa / (Bytes(level) / PAGE_SIZE) * Bytes(level) + va % Bytes(level) else 0
  }

  /** The address behind an address: the frame of a small page and the place in it, or the first frame of a large page and
      the distance from its first address. */
  lemma PhysicalIs(e: Entry, va: int)
    requires 0 <= va
    ensures e.Leaf? ==> Physical(e, 1, va) == e.pa * 4096 + va % 4096
    ensures e.Huge? && e.level == 2 ==> Physical(e, 2, va) == (e.pa - e.pa % 512) * 4096 + (va - va / 0x20_0000 * 0x20_0000)
    ensures e.Huge? && e.level == 3 ==> Physical(e, 3, va) == (e.pa - e.pa % 0x4_0000) * 4096 + (va - va / 0x4000_0000 * 0x4000_0000)
  {
  }

  /** Addresses behind one entry keep their distance. */
  lemma KeepsDistance(e: Entry, level: int, va: int, va': int)
    requires 1 <= level <= 3 && 0 <= va && 0 <= va' && SameEntry(level, va / PAGE_SIZE, va' / PAGE_SIZE) && (e.Leaf? || e.Huge?)
    ensures Physical(e, level, va') - Physical(e, level, va) == va' - va
  {
    EntryStart(level, va);
    EntryStart(level, va');
  }

  lemma EntryStart(level: int, va: int)
    requires 1 <= level <= 3 && 0 <= va
    ensures Prefix(va / PAGE_SIZE, level - 1) == va / Bytes(level)
  {
    var v := va / PAGE_SIZE;
    assert Prefix(v, 0) == v;
    assert level >= 2 ==> Prefix(v, 1) == v / SLOTS == va / 0x20_0000;
    assert level == 3 ==> Prefix(v, 2) == Prefix(v, 1) / SLOTS == va / 0x4000_0000;
  }

  // ---- The code ------------------------------------------------------------------------------

  /** A walk goes on unchanged below a link. */
  lemma Descent(s: Space, f: int, level: int, v: int)
    requires TreeOk(s) && Here(s, f, level, v) && s.tables[f][Index(v, level)].Link?
    ensures var g := s.tables[f][Index(v, level)].frame;
      level > 1 && Here(s, g, level - 1, v) && Stepped(s, f, level, v, s, g, false)
      && Walk(s, f, level, v) == Walk(s, g, level - 1, v) && Ends(s, f, level, v) == Ends(s, g, level - 1, v)
      && Last(s, f, level, v) == Last(s, g, level - 1, v)
  {
    StepDown(s, f, level, v);
  }

  /** An unmap that clears nothing changes nothing. */
  lemma {:induction false} NothingToClear(s: Space, f: int, level: int, v: int)
    requires TreeOk(s) && Here(s, f, level, v) && !Removes(s, f, level, v)
    ensures Shrink(s, f, level, v) == (s, false)
    decreases level
  {
    if s.tables[f][Index(v, level)].Link? {
      Descent(s, f, level, v);
      NothingToClear(s, s.tables[f][Index(v, level)].frame, level - 1, v);
    }
  }

  /** The level of an entry is that of the page's size. */
  lemma EntryDepth(s: Space, v: int)
    requires TreeOk(s) && 0 <= v < PAGES
    ensures !Translate(s, v).Link? && 1 <= Depth(s, v) <= 4
    ensures Translate(s, v).Leaf? ==> Depth(s, v) == 1
    ensures Translate(s, v).Huge? ==> Depth(s, v) == Translate(s, v).level && Depth(s, v) in {2, 3}
  {
    AtRoot(s, v);
    LastHere(s, s.root, 4, v);
    var t, k := Last(s, s.root, 4, v), Depth(s, v);
    assert TableOk(s, t) && EntryOk(s, t, Index(v, k));
  }

  lemma LeafDepth(s: Space, v: int)
    requires TreeOk(s) && 0 <= v < PAGES && Translate(s, v).Leaf?
    ensures Depth(s, v) == 1
  {
    AtRoot(s, v);
    LastHere(s, s.root, 4, v);
    var t, k := Last(s, s.root, 4, v), Depth(s, v);
    assert TableOk(s, t) && EntryOk(s, t, Index(v, k));
  }

  /** Every run of maps, unmaps and protection changes, whatever fails in between, leaves a tree without empty tables
      that owns the frames the allocator does not have. */
  ghost function Run(s: Space, calls: seq<Call>): Space
    requires Sound(s)
    decreases calls
  {
    if calls == [] then s else Run(Serve(s, calls[0]), calls[1..])
  }

  lemma {:induction false} RunSound(s: Space, calls: seq<Call>)
    requires Sound(s)
    ensures Sound(Run(s, calls)) && Frames(Run(s, calls)) == Frames(s)
    decreases calls
  {
    if calls != [] { RunSound(Serve(s, calls[0]), calls[1..]); }
  }

  ghost predicate Succeeds(s: Space, c: Call) { c.MapCall? && 0 <= c.v < PAGES && Outcome(s, s.root, 4, c.v) == Ok }

  /** What a call does to a flat table of pages, at page w: large pages are cleared and protected as a whole. */
  function FlatStep(e: Entry, c: Call, ok: bool, w: int): Entry {
    match c
    case MapCall(v, pa, flags) => if ok && v == w then Leaf(pa, flags) else e
    case UnmapCall(v) =>
      if (e.Leaf? && v == w) || (e.Huge? && e.level == 2 && e.managed && v / 512 == w / 512) then Empty else e
    case ProtectCall(v, flags) =>
      if e.Leaf? && v == w then Leaf(e.pa, flags)
      else if e.Huge? && e.level == 2 && v / 512 == w / 512 then Huge(e.pa, flags, e.managed, 2)
      else e
  }

  function FlatRun(e: Entry, calls: seq<Call>, oks: seq<bool>, w: int): Entry
    requires |oks| == |calls|
    decreases |calls|
  {
    if calls == [] then e else FlatRun(FlatStep(e, calls[0], oks[0], w), calls[1..], oks[1..], w)
  }

  ghost function Outcomes(s: Space, calls: seq<Call>): (oks: seq<bool>)
    requires Sound(s)
    ensures |oks| == |calls|
    decreases |calls|
  {
    if calls == [] then [] else [Succeeds(s, calls[0])] + Outcomes(Serve(s, calls[0]), calls[1..])
  }

  // Two pages of one large page have the same entry.
  lemma SameLarge(s: Space, v: int, w: int)
    requires TreeOk(s) && 0 <= v < PAGES && 0 <= w < PAGES && v / 512 == w / 512
    requires (Translate(s, v).Huge? && Translate(s, v).level == 2) || (Translate(s, w).Huge? && Translate(s, w).level == 2)
    ensures Translate(s, w) == Translate(s, v)
  {
    EntryDepth(s, v);
    EntryDepth(s, w);
    AtRoot(s, v);
    AtRoot(s, w);
    PrefixIs(v);
    PrefixIs(w);
    if Translate(s, v).Huge? && Translate(s, v).level == 2 {
      SameWalk(s, s.root, 4, v, w);
    } else {
      SameWalk(s, s.root, 4, w, v);
    }
  }

  lemma {:induction false} SameWalk(s: Space, f: int, level: int, v: int, w: int)
    requires TreeOk(s) && Here(s, f, level, v) && SameEntry(Ends(s, f, level, v), v, w)
    ensures Walk(s, f, level, w) == Walk(s, f, level, v)
    decreases level
  {
    SameAbove(Ends(s, f, level, v), level, v, w);
    if s.tables[f][Index(v, level)].Link? {
      Descent(s, f, level, v);
      SameWalk(s, s.tables[f][Index(v, level)].frame, level - 1, v, w);
    }
  }

  lemma ServeTranslates(s: Space, c: Call, w: int)
    requires Sound(s) && 0 <= w < PAGES
    ensures Translate(Serve(s, c), w) == FlatStep(Translate(s, w), c, Succeeds(s, c), w)
  {
    if 0 <= c.v < PAGES {
      match c
      case MapCall(v, pa, flags) => MapRefines(s, v, Leaf(pa, flags), w);
      case UnmapCall(v) => UnmapRefines(s, v, w); OneLarge(s, v, w);
      case ProtectCall(v, flags) => ProtectRefines(s, v, flags, w); OneLarge(s, v, w);
    }
  }

  lemma OneLarge(s: Space, v: int, w: int)
    requires TreeOk(s) && 0 <= v < PAGES && 0 <= w < PAGES
    ensures v / 512 == w / 512 && Translate(s, v).Huge? && Translate(s, v).level == 2 ==> Translate(s, w) == Translate(s, v)
    ensures v / 512 == w / 512 && Translate(s, w).Huge? && Translate(s, w).level == 2 ==> Translate(s, w) == Translate(s, v)
  {
    if v / 512 == w / 512 && ((Translate(s, v).Huge? && Translate(s, v).level == 2) || (Translate(s, w).Huge? && Translate(s, w).level == 2)) {
      SameLarge(s, v, w);
    }
  }

  /** After any run, every page translates to what the calls on it, taken alone, leave of a flat table. */
  lemma {:induction false} RunTranslates(s: Space, calls: seq<Call>, w: int)
    requires Sound(s) && 0 <= w < PAGES
    ensures Translate(Run(s, calls), w) == FlatRun(Translate(s, w), calls, Outcomes(s, calls), w)
    decreases |calls|
  {
    if calls != [] {
      ServeTranslates(s, calls[0], w);
      RunTranslates(Serve(s, calls[0]), calls[1..], w);
      assert Outcomes(s, calls)[1..] == Outcomes(Serve(s, calls[0]), calls[1..]);
    }
  }

  /** Page w once the first i pages from v on were mapped to consecutive frames and the first j of them unmapped again. */
  ghost predicate PageIs(s0: Space, s: Space, v: int, i: int, j: int, pa: int, flags: int, w: int) {
    Translate(s, w) == if v <= w < v + j then Empty else if v <= w < v + i then Leaf(pa + (w - v), flags) else Translate(s0, w)
  }

  ghost predicate Partly(s0: Space, s: Space, v: int, i: int, j: int, pa: int, flags: int) {
    && Sound(s) && Frames(s) == Frames(s0)
    && forall w {:trigger PageIs(s0, s, v, i, j, pa, flags, w)} :: 0 <= w < PAGES ==> PageIs(s0, s, v, i, j, pa, flags, w)
  }

  lemma MapPageIs(s0: Space, s: Space, v: int, i: int, pa: int, flags: int, w: int)
    requires Sound(s) && 0 <= v && 0 <= i && v + i < PAGES && Outcome(s, s.root, 4, v + i) == Ok && 0 <= w < PAGES
    requires PageIs(s0, s, v, i, 0, pa, flags, w)
    ensures PageIs(s0, Map(s, v + i, Leaf(pa + i, flags)), v, i + 1, 0, pa, flags, w)
  {
    MapRefines(s, v + i, Leaf(pa + i, flags), w);
  }

  lemma MapOneMore(s0: Space, s: Space, v: int, i: int, n: int, pa: int, flags: int, s': Space)
    requires Partly(s0, s, v, i, 0, pa, flags) && 0 <= v && 0 <= i && v + i < PAGES && n == i + 1
    requires Outcome(s, s.root, 4, v + i) == Ok && s' == Map(s, v + i, Leaf(pa + i, flags))
    ensures Partly(s0, s', v, n, 0, pa, flags)
  {
    MapRefines(s, v + i, Leaf(pa + i, flags), 0);
    forall w | 0 <= w < PAGES ensures PageIs(s0, s', v, n, 0, pa, flags, w) {
      assert PageIs(s0, s, v, i, 0, pa, flags, w);
      MapPageIs(s0, s, v, i, pa, flags, w);
    }
  }

  lemma UnmapLeaf(s: Space, v: int, w: int)
    requires Sound(s) && 0 <= v < PAGES && 0 <= w < PAGES && Translate(s, v).Leaf?
    ensures Translate(Unmap(s, v), w) == if w == v then Empty else Translate(s, w)
  {
    LeafDepth(s, v);
    UnmapRefines(s, v, w);
    assert Prefix(v, 0) == v && Prefix(w, 0) == w;
  }

  lemma UnmapPageIs(s0: Space, s: Space, v: int, i: int, j: int, pa: int, flags: int, w: int)
    requires Sound(s) && 0 <= v && 0 <= j < i && v + i < PAGES && 0 <= w < PAGES
    requires PageIs(s0, s, v, i, j, pa, flags, w) && Translate(s, v + j) == Leaf(pa + j, flags)
    ensures PageIs(s0, Unmap(s, v + j), v, i, j + 1, pa, flags, w)
  {
    UnmapLeaf(s, v + j, w);
  }

  lemma UnmapOneMore(s0: Space, s: Space, v: int, i: int, j: int, n: int, pa: int, flags: int, s': Space)
    requires Partly(s0, s, v, i, j, pa, flags) && 0 <= v && 0 <= j < i && v + i < PAGES && n == j + 1
    requires s' == Unmap(s, v + j)
    ensures Partly(s0, s', v, i, n, pa, flags)
  {
    UnmapRefines(s, v + j, 0);
    assert PageIs(s0, s, v, i, j, pa, flags, v + j);
    forall w | 0 <= w < PAGES ensures PageIs(s0, s', v, i, n, pa, flags, w) {
      assert PageIs(s0, s, v, i, j, pa, flags, w);
      UnmapPageIs(s0, s, v, i, j, pa, flags, w);
    }
  }

  ghost predicate SameFor(s0: Space, s: Space, w: int) { Translate(s, w) == Translate(s0, w) }

  ghost predicate Unused(s: Space, w: int) { Translate(s, w) == Empty }

  /** A map of several pages that failed after `done` of them restores every translation exactly when none of those
      pages was mapped before. */
  lemma RollbackRestores(s0: Space, s: Space, v: int, done: int, pa: int, flags: int)
    requires Partly(s0, s, v, done, done, pa, flags) && 0 <= v && v + done <= PAGES
    ensures (forall w :: 0 <= w < PAGES ==> SameFor(s0, s, w)) <==> (forall w :: v <= w < v + done ==> Unused(s0, w))
  {
    forall w | 0 <= w < PAGES ensures v <= w < v + done ==> Unused(s, w)
      ensures !(v <= w < v + done) ==> SameFor(s0, s, w)
    {
      assert PageIs(s0, s, v, done, done, pa, flags, w);
    }
    if forall w :: 0 <= w < PAGES ==> SameFor(s0, s, w) {
      forall w | v <= w < v + done ensures Unused(s0, w) { assert SameFor(s0, s, w) && Unused(s, w); }
    }
    if forall w :: v <= w < v + done ==> Unused(s0, w) {
      forall w | 0 <= w < PAGES ensures SameFor(s0, s, w) { if v <= w < v + done { assert Unused(s0, w) && Unused(s, w); } }
    }
  }

  /** Above a table that is kept nothing else is cleaned up. */
  lemma {:induction false} NoMoreToDrop(s: Space, v: int, pdpt: int, pd: int, kept: Space)
    requires TreeOk(s) && Here(s, s.root, 4, v) && Here(s, pdpt, 3, v) && Here(s, pd, 2, v)
    requires s.tables[s.root][Index(v, 4)] == Link(pdpt) && s.tables[pdpt][Index(v, 3)] == Link(pd)
    requires Shrink(s, pd, 2, v) == (kept, false) || (Shrink(s, pd, 2, v).0 == kept && !UserHalf(v))
    ensures Shrink(s, s.root, 4, v).0 == kept
  {
    assert Shrink(s, pdpt, 3, v) == (kept, false);
  }

  class AddressSpace {
    const root: int
    var tables: map<int, seq<Entry>>
    var free: seq<int>
    ghost var home: map<int, Home>

    /** A new address space: an empty table of the fourth level. */
    constructor (root: int, free: seq<int>)
      requires NoDup(free) && root !in free
      ensures Sound(Now()) && this.root == root && this.free == free && forall v :: Translate(Now(), v) == Empty
    {
      this.root, this.free := root, free;
      tables := map[root := NewTable()];
      home := map[root := Home(4, 0, root)];
      new;
      assert TableOk(Now(), root);
    }

    ghost function Now(): Space
      reads this
    {
      Space(root, tables, free, home)
    }

    method Descend(f: int, level: int, v: int) returns (g: int, made: bool, code: Code)
      requires TreeOk(Now()) && Here(Now(), f, level, v) && level > 1
      modifies this`tables, this`free, this`home
      ensures code == Ok ==> Stepped(old(Now()), f, level, v, Now(), g, made)
      ensures code != Ok ==> Now() == old(Now()) && Outcome(Now(), f, level, v) == code
    {
      ghost var s0 := Now();
      var i := Index(v, level);
      assert TableOk(s0, f) && EntryOk(s0, f, i);
      match tables[f][i] {
        case Huge(_, _, _, _) => return 0, false, Exists;
        case Link(next) => return next, false, Ok;
        case Empty =>
          if free == [] { return 0, false, NoMemory; }
          g, made, code := free[0], true, Ok;
          free := free[1..];
          tables := tables[g := NewTable()];
          tables := tables[f := tables[f][i := Link(g)]];
          home := home[g := Home(home[f].level - 1, home[f].prefix * SLOTS + i, f)];
          assert g in s0.free;
      }
    }

    /** Unlinks a table from its parent and frees its frame. */
    method Drop(f: int, i: int, g: int)
      requires f in tables && 0 <= i < |tables[f]|
      modifies this`tables, this`free, this`home
      ensures Now() == Unlink(old(Now()), f, i, g)
    {
      tables := tables[f := tables[f][i := Empty]];
      tables := tables - {g};
      free := [g] + free;
      home := home - {g};
    }

    method MapPage(v: int, pa: int, flags: int) returns (code: Code)
      requires TreeOk(Now()) && 0 <= v < PAGES
      modifies this`tables, this`free, this`home
      ensures Now() == Map(old(Now()), v, Leaf(pa, flags)) && code == Outcome(old(Now()), root, 4, v)
    {
      ghost var s4, e := Now(), Leaf(pa, flags);
      AtRoot(s4, v);
      var pdpt, newPdpt, pd, newPd, pt, newPt;
      pdpt, newPdpt, code := Descend(root, 4, v);
      if code != Ok { return; }
      ghost var s3 := Now();
      SteppedHere(s4, root, 4, v, s3, pdpt, newPdpt);
      SteppedGrow(s4, root, 4, v, s3, pdpt, newPdpt, e);
      pd, newPd, code := Descend(pdpt, 3, v);
      if code != Ok {
        if newPdpt { Drop(root, Index(v, 4), pdpt); }
        return;
      }
      ghost var s2 := Now();
      SteppedHere(s3, pdpt, 3, v, s2, pd, newPd);
      SteppedGrow(s3, pdpt, 3, v, s2, pd, newPd, e);
      pt, newPt, code := Descend(pd, 2, v);
      if code != Ok {
        if newPd { Drop(pdpt, Index(v, 3), pd); }
        if newPdpt { Drop(root, Index(v, 4), pdpt); }
        return;
      }
      ghost var s1 := Now();
      SteppedGrow(s2, pd, 2, v, s1, pt, newPt, e);
      tables := tables[pt := tables[pt][Index(v, 1) := Leaf(pa, flags)]];
    }

    method IsEmpty(f: int) returns (b: bool)
      requires f in tables && |tables[f]| == SLOTS
      ensures b == Blank(tables[f])
    {
      for i := 0 to SLOTS
        invariant forall j :: 0 <= j < i ==> tables[f][j] == Empty
      {
        if tables[f][i] != Empty { return false; }
      }
      return true;
    }

    /** Clears the entry of a page and gives back the tables this empties. */
    method UnmapPage(v: int) returns (code: Code)
      requires TreeOk(Now()) && 0 <= v < PAGES
      modifies this`tables, this`free, this`home
      ensures Now() == Unmap(old(Now()), v)
      ensures var e := Translate(old(Now()), v); code == if e.Huge? && e.level == 3 then Invalid else Ok
    {
      ghost var s0 := Now();
      EntryDepth(s0, v);
      var l4, l3, l2 := Index(v, 4), Index(v, 3), Index(v, 2);
      AtRoot(s0, v);
      assert TableOk(s0, root) && EntryOk(s0, root, l4);
      if !tables[root][l4].Link? { return Ok; }
      var pdpt := tables[root][l4].frame;
      Descent(s0, root, 4, v);
      assert TableOk(s0, pdpt) && EntryOk(s0, pdpt, l3);
      if !tables[pdpt][l3].Link? {
        NothingToClear(s0, root, 4, v);
        return if tables[pdpt][l3].Huge? then Invalid else Ok;
      }
      var pd := tables[pdpt][l3].frame;
      Descent(s0, pdpt, 3, v);
      assert TableOk(s0, pd) && EntryOk(s0, pd, l2);
      match tables[pd][l2] {
        case Huge(_, _, managed, _) =>
          if !managed {
            NothingToClear(s0, root, 4, v);
            return Ok;
          }
          tables := tables[pd := tables[pd][l2 := Empty]];
          Climb(v, pdpt, pd, s0);
          return Ok;
        case Link(pt) =>
          Descent(s0, pd, 2, v);
          ClearLeaf(v, pdpt, pd, pt);
          return Ok;
        case Empty =>
          NothingToClear(s0, root, 4, v);
          return Ok;
      }
    }

    /** The entry of a page is cleared, and tables that this empties are freed. */
    method ClearLeaf(v: int, pdpt: int, pd: int, pt: int)
      requires TreeOk(Now()) && 0 <= v < PAGES
      requires Here(Now(), root, 4, v) && Here(Now(), pdpt, 3, v) && Here(Now(), pd, 2, v) && Here(Now(), pt, 1, v)
      requires tables[root][Index(v, 4)] == Link(pdpt) && tables[pdpt][Index(v, 3)] == Link(pd) && tables[pd][Index(v, 2)] == Link(pt)
      modifies this`tables, this`free, this`home
      ensures Now() == Unmap(old(Now()), v)
    {
      ghost var s0 := Now();
      tables := tables[pt := tables[pt][Index(v, 1) := Empty]];
      ghost var r := Shrink(s0, pt, 1, v);
      assert Now() == r.0;
      ClearedAbove(s0, pd, 2, v, pt, r.0, r.1);
      var emptied := IsEmpty(pt);
      if Index(v, 4) < 256 && emptied {
        Drop(pd, Index(v, 2), pt);
        Climb(v, pdpt, pd, s0);
      } else {
        assert Shrink(s0, pd, 2, v) == (Now(), false);
        NoMoreToDrop(s0, v, pdpt, pd, Now());
      }
    }

    /** The upper half of the clean-up: the page directory first, then the table above it. */
    method Climb(v: int, pdpt: int, pd: int, ghost s0: Space)
      requires TreeOk(s0) && 0 <= v < PAGES && s0.root == root && Here(s0, root, 4, v) && Here(s0, pdpt, 3, v) && Here(s0, pd, 2, v)
      requires s0.tables[root][Index(v, 4)] == Link(pdpt) && s0.tables[pdpt][Index(v, 3)] == Link(pd)
      requires Now() == Shrink(s0, pd, 2, v).0 && Shrink(s0, pd, 2, v).1 == Blank(Shrink(s0, pd, 2, v).0.tables[pd])
      modifies this`tables, this`free, this`home
      ensures Now() == Unmap(s0, v)
    {
      ghost var r2, r3 := Shrink(s0, pd, 2, v), Shrink(s0, pdpt, 3, v);
      ClearedAbove(s0, pdpt, 3, v, pd, r2.0, r2.1);
      ClearedAbove(s0, root, 4, v, pdpt, r3.0, r3.1);
      var emptied := IsEmpty(pd);
      if Index(v, 4) < 256 && emptied {
        Drop(pdpt, Index(v, 3), pd);
        emptied := IsEmpty(pdpt);
        if emptied { Drop(root, Index(v, 4), pdpt); }
      }
    }

    method Rollback(v: int, i: int, ghost pa: int, ghost flags: int, ghost s0: Space)
      requires Partly(s0, Now(), v, i, 0, pa, flags) && 0 <= v && 0 <= i && v + i < PAGES
      modifies this`tables, this`free, this`home
      ensures Partly(s0, Now(), v, i, i, pa, flags)
    {
      for j := 0 to i
        invariant Partly(s0, Now(), v, i, j, pa, flags)
      {
        ghost var s := Now();
        var _ := UnmapPage(v + j);
        UnmapOneMore(s0, s, v, i, j, j + 1, pa, flags, Now());
      }
    }

    /** Maps consecutive pages; on a failure the pages already mapped are unmapped again. */
    method MapPages(v: int, pa: int, count: int, flags: int) returns (code: Code, ghost done: int, ghost at: Space)
      requires Sound(Now()) && 0 <= v && 0 <= count && v + count <= PAGES
      modifies this`tables, this`free, this`home
      ensures code == Ok ==> Partly(old(Now()), Now(), v, count, 0, pa, flags)
      ensures code != Ok ==> 0 <= done < count && Partly(old(Now()), Now(), v, done, done, pa, flags)
      ensures code != Ok ==> Partly(old(Now()), at, v, done, 0, pa, flags) && at.root == root && code == Outcome(at, root, 4, v + done)
    {
      ghost var s0 := Now();
      done, at := 0, s0;
      assert Partly(s0, s0, v, 0, 0, pa, flags);
      for i := 0 to count
        invariant done == i && Partly(s0, Now(), v, i, 0, pa, flags)
      {
        ghost var s := Now();
        code := MapPage(v + i, pa + i, flags);
        at := s;
        if code != Ok {
          Rollback(v, i, pa, flags, s0);
          return;
        }
        MapOneMore(s0, s, v, i, i + 1, pa, flags, Now());
        done := i + 1;
      }
      code := Ok;
    }

    method ProtectPage(v: int, flags: int) returns (code: Code)
      requires TreeOk(Now()) && 0 <= v < PAGES
      modifies this`tables
      ensures Now() == Protect(old(Now()), v, flags)
      ensures var e := Translate(old(Now()), v); code == if e.Leaf? || (e.Huge? && e.level == 2) then Ok else Invalid
    {
      ghost var s0 := Now();
      EntryDepth(s0, v);
      AtRoot(s0, v);
      if !tables[root][Index(v, 4)].Link? { return Invalid; }
      Descent(s0, root, 4, v);
      var pdpt := tables[root][Index(v, 4)].frame;
      if !tables[pdpt][Index(v, 3)].Link? { return Invalid; }
      Descent(s0, pdpt, 3, v);
      var pd := tables[pdpt][Index(v, 3)].frame;
      assert TableOk(s0, pd) && EntryOk(s0, pd, Index(v, 2));
      match tables[pd][Index(v, 2)] {
        case Empty => return Invalid;
        case Huge(pa, _, managed, level) =>
          tables := tables[pd := tables[pd][Index(v, 2) := Huge(pa, flags, managed, level)]];
          return Ok;
        case Link(pt) =>
          Descent(s0, pd, 2, v);
          assert TableOk(s0, pt) && EntryOk(s0, pt, Index(v, 1));
          if tables[pt][Index(v, 1)] == Empty { return Invalid; }
          tables := tables[pt := tables[pt][Index(v, 1) := Leaf(tables[pt][Index(v, 1)].pa, flags)]];
          return Ok;
      }
    }

    /** The physical address behind an address, 0 if there is none. */
    method VirtToPhys(va: int) returns (phys: int)
      requires TreeOk(Now()) && 0 <= va < PAGES * PAGE_SIZE
      ensures var e := Translate(Now(), va / 4096);
              && (e == Empty ==> phys == 0)
              && (e.Leaf? ==> phys == e.pa * 4096 + va % 4096)
              && (e.Huge? ==> e.level in {2, 3} && phys == Physical(e, e.level, va))
    {
      ghost var s := Now();
      var v := va / PAGE_SIZE;
      EntryDepth(s, v);
      AtRoot(s, v);
      assert TableOk(s, root) && EntryOk(s, root, Index(v, 4));
      if !tables[root][Index(v, 4)].Link? { return 0; }
      Descent(s, root, 4, v);
      var pdpt := tables[root][Index(v, 4)].frame;
      var e := tables[pdpt][Index(v, 3)];
      assert TableOk(s, pdpt) && EntryOk(s, pdpt, Index(v, 3));
      if e == Empty { return 0; }
      if e.Huge? { return e.pa / 0x40000 * 0x4000_0000 + va % 0x4000_0000; }
      Descent(s, pdpt, 3, v);
      var pd := e.frame;
      e := tables[pd][Index(v, 2)];
      assert TableOk(s, pd) && EntryOk(s, pd, Index(v, 2));
      if e == Empty { return 0; }
      if e.Huge? { return e.pa / 512 * 0x20_0000 + va % 0x20_0000; }
      Descent(s, pd, 2, v);
      var pt := e.frame;
      e := tables[pt][Index(v, 1)];
      assert TableOk(s, pt) && EntryOk(s, pt, Index(v, 1));
      if e == Empty { return 0; }
      return e.pa * PAGE_SIZE + va % PAGE_SIZE;
    }
  }
}
