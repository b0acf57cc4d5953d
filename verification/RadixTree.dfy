/**
 The 64-way radix tree of mem/radix_tree.c, with its two tags. Nodes live in a store of blocks handed out by an
 allocator that may run dry. Every node carries its home: the level it stands on (leaves on level 1), the part of
 the index that leads to it and its parent. Homes are ghost information.
 */
module RadixTree {
  import opened Arithmetic
  import opened Basics

  const WIDTH := 64
  const TAGS := 2
  const MAX_HEIGHT := 7

  datatype Slot = Null | Item(x: int) | Child(id: int)

  datatype Node = Node(count: int, slots: seq<Slot>, tags: seq<seq<bool>>)

  datatype Home = Home(level: int, prefix: int, parent: int)

  datatype Tree = Tree(height: int, root: Slot, nodes: map<int, Node>, free: seq<int>, home: map<int, Home>)

  /** What the tree holds at an index. */
  datatype Cell = Absent | Present(x: int, tags: seq<bool>)

  /** The index without its lowest k digits of six bits. */
  function Prefix(v: int, k: int): int
    requires k >= 0
    decreases k, v
  {
    if k == 0 then v else Prefix(v, k - 1) / WIDTH
  }

  function Digit(v: int, level: int): int
    requires level >= 1
  {
    Prefix(v, level - 1) % WIDTH
  }

  /** The largest index a tree of some height can hold. */
  function MaxIndex(height: int): int
    requires height >= 0
    decreases height, 0
  {
    if height == 0 then 0 else MaxIndex(height - 1) * WIDTH + (WIDTH - 1)
  }

  lemma {:induction false} Fits(v: int, height: int)
    requires v >= 0 && height >= 0
    ensures v <= MaxIndex(height) <==> Prefix(v, height) == 0
    ensures Prefix(v, height) >= 0
    decreases height
  {
    if height > 0 {
      PrefixLow(v, height);
      Fits(v / WIDTH, height - 1);
    }
  }

  lemma {:induction false} PrefixLow(v: int, k: int)
    requires k >= 1
    ensures Prefix(v, k) == Prefix(v / WIDTH, k - 1)
    decreases k
  {
    if k > 1 { PrefixLow(v, k - 1); }
  }

  lemma {:induction false} MaxMonotone(height: int)
    requires 0 <= height <= MAX_HEIGHT
    ensures 0 <= MaxIndex(height) <= MaxIndex(MAX_HEIGHT)
    decreases MAX_HEIGHT - height
  {
    MaxPositive(height);
    if height < MAX_HEIGHT { MaxMonotone(height + 1); }
  }

  lemma {:induction false} MaxPositive(height: int)
    requires 0 <= height
    ensures 0 <= MaxIndex(height)
    decreases height
  {
    if height > 0 { MaxPositive(height - 1); }
  }

  function Count(slots: seq<Slot>): int {
    if slots == [] then 0 else Count(slots[..|slots| - 1]) + (if slots[|slots| - 1] == Null then 0 else 1)
  }

  predicate Blank(slots: seq<Slot>) { forall i :: 0 <= i < |slots| ==> slots[i] == Null }

  lemma {:induction false} CountUpdate(slots: seq<Slot>, i: int, e: Slot)
    requires 0 <= i < |slots|
    ensures Count(slots[i := e]) == Count(slots) + (if e == Null then 0 else 1) - (if slots[i] == Null then 0 else 1)
    decreases |slots|
  {
    var n := |slots| - 1;
    if i < n {
      CountUpdate(slots[..n], i, e);
      assert slots[i := e][..n] == slots[..n][i := e];
    } else {
      assert slots[i := e][..n] == slots[..n];
    }
  }

  lemma {:induction false} CountZero(slots: seq<Slot>)
    ensures 0 <= Count(slots) && (Count(slots) == 0 <==> Blank(slots))
    decreases |slots|
  {
    if slots != [] {
      var n := |slots| - 1;
      CountZero(slots[..n]);
      if Blank(slots[..n]) { forall i | 0 <= i < n ensures slots[i] == Null { assert slots[..n][i] == Null; } }
      if Blank(slots) { forall i | 0 <= i < n ensures slots[..n][i] == Null { assert slots[i] == Null; } }
    }
  }

  predicate NoTag(bits: seq<bool>) { forall i :: 0 <= i < |bits| ==> !bits[i] }

  function NoBits(): (b: seq<bool>)
    ensures |b| == WIDTH && NoTag(b)
  {
    seq(WIDTH, _ => false)
  }

  function NewNode(): (n: Node)
    ensures n.count == 0 && |n.slots| == WIDTH && Blank(n.slots) && |n.tags| == TAGS
    ensures forall t :: 0 <= t < TAGS ==> |n.tags[t]| == WIDTH && NoTag(n.tags[t])
  {
    Node(0, seq(WIDTH, _ => Null), [NoBits(), NoBits()])
  }

  // ---- The tree ------------------------------------------------------------------------------

  ghost predicate SlotOk(s: Tree, f: int, i: int)
    requires f in s.nodes && f in s.home && 0 <= i < |s.nodes[f].slots|
  {
    match s.nodes[f].slots[i]
    case Null => true
    case Item(_) => s.home[f].level == 1
    case Child(g) => s.home[f].level > 1 && g in s.nodes && g in s.home
                     && s.home[g] == Home(s.home[f].level - 1, s.home[f].prefix * WIDTH + i, f)
  }

  predicate Shaped(n: Node) {
    |n.slots| == WIDTH && |n.tags| == TAGS && |n.tags[0]| == WIDTH && |n.tags[1]| == WIDTH
  }

  ghost predicate LinkedBack(s: Tree, f: int)
    requires f in s.home
  {
    var h := s.home[f];
    h.parent in s.nodes && h.parent in s.home && s.home[h.parent].level == h.level + 1
    && |s.nodes[h.parent].slots| == WIDTH && s.nodes[h.parent].slots[h.prefix % WIDTH] == Child(f)
  }

  ghost predicate NodeOk(s: Tree, f: int)
    requires f in s.nodes
  {
    && f in s.home && 1 <= s.home[f].level <= s.height && Shaped(s.nodes[f])
    && s.nodes[f].count == Count(s.nodes[f].slots)
    && (if s.home[f].level == s.height then s.root == Child(f) else LinkedBack(s, f))
    && forall i {:trigger SlotOk(s, f, i)} :: 0 <= i < WIDTH ==> SlotOk(s, f, i)
  }

  ghost predicate RootOk(s: Tree) {
    0 <= s.height <= MAX_HEIGHT && s.home.Keys == s.nodes.Keys
    && (if s.height == 0 then !s.root.Child? && s.nodes == map[]
        else s.root.Child? && s.root.id in s.nodes && s.root.id in s.home
             && s.home[s.root.id].level == s.height && s.home[s.root.id].prefix == 0)
  }

  /** Every node is linked once, from its parent, and counts its own slots. */
  ghost predicate TreeOk(s: Tree) {
    && RootOk(s) && NoDup(s.free) && (forall f :: f in s.free ==> f !in s.nodes)
    && forall f {:trigger NodeOk(s, f)} :: f in s.nodes ==> NodeOk(s, f)
  }

  /** A node with a tagged slot is itself tagged in its parent. */
  ghost predicate TagAt(s: Tree, f: int)
    requires f in s.nodes
  {
    f in s.home && 1 <= s.home[f].level < s.height && LinkedBack(s, f) && Shaped(s.nodes[f]) && Shaped(s.nodes[s.home[f].parent]) ==>
      forall t :: 0 <= t < TAGS ==> NoTag(s.nodes[f].tags[t]) || s.nodes[s.home[f].parent].tags[t][s.home[f].prefix % WIDTH]
  }

  ghost predicate TagsOk(s: Tree) { forall f {:trigger TagAt(s, f)} :: f in s.nodes ==> TagAt(s, f) }

  /** Leaf tags stand on items only. */
  ghost predicate CleanAt(s: Tree, f: int)
    requires f in s.nodes
  {
    f in s.home && s.home[f].level == 1 && Shaped(s.nodes[f]) ==>
      forall i, t :: 0 <= i < WIDTH && 0 <= t < TAGS && s.nodes[f].tags[t][i] ==> s.nodes[f].slots[i] != Null
  }

  ghost predicate Clean(s: Tree) { forall f {:trigger CleanAt(s, f)} :: f in s.nodes ==> CleanAt(s, f) }

  ghost predicate Sound(s: Tree) { TreeOk(s) && TagsOk(s) }

  /** Node f is where the walk for index v looks at this level. */
  ghost predicate Here(s: Tree, f: int, level: int, v: int) {
    && f in s.nodes && f in s.home && 1 <= level <= s.height && s.home[f].level == level
    && s.home[f].prefix == Prefix(v, level) && Shaped(s.nodes[f])
  }

  function CellOf(n: Node, i: int): Cell
    requires Shaped(n) && 0 <= i < WIDTH
  {
    if n.slots[i].Item? then Present(n.slots[i].x, [n.tags[0][i], n.tags[1][i]]) else Absent
  }

  ghost function Walk(s: Tree, f: int, level: int, v: int): Cell
    requires level >= 1
    decreases level, f
  {
    if f !in s.nodes || !Shaped(s.nodes[f]) then Absent
    else if level == 1 then CellOf(s.nodes[f], Digit(v, 1))
    else
      var e := s.nodes[f].slots[Digit(v, level)];
      if e.Child? then Walk(s, e.id, level - 1, v) else Absent
  }

  /** The flat meaning of the tree: index to item and tags. */
  ghost function View(s: Tree, v: int): Cell {
    if v < 0 || s.height < 0 || Prefix(v, s.height) != 0 then Absent
    else if s.height == 0 then (if s.root.Item? then Present(s.root.x, [false, false]) else Absent)
    else if s.root.Child? then Walk(s, s.root.id, s.height, v)
    else Absent
  }

  lemma StepDown(s: Tree, f: int, level: int, v: int)
    requires TreeOk(s) && Here(s, f, level, v) && s.nodes[f].slots[Digit(v, level)].Child?
    ensures level > 1 && Here(s, s.nodes[f].slots[Digit(v, level)].id, level - 1, v)
    ensures Walk(s, f, level, v) == Walk(s, s.nodes[f].slots[Digit(v, level)].id, level - 1, v)
    ensures s.nodes[f].slots[Digit(v, level)].id != f
  {
    assert NodeOk(s, f) && SlotOk(s, f, Digit(v, level));
    var g := s.nodes[f].slots[Digit(v, level)].id;
    assert NodeOk(s, g);
  }

  lemma StepUp(s: Tree, f: int, level: int, v: int)
    requires TreeOk(s) && Here(s, f, level, v) && level < s.height
    ensures var p := s.home[f].parent; Here(s, p, level + 1, v) && s.nodes[p].slots[Digit(v, level + 1)] == Child(f)
  {
    assert NodeOk(s, f);
    var p := s.home[f].parent;
    assert NodeOk(s, p) && SlotOk(s, p, s.home[f].prefix % WIDTH);
  }

  /** The walk for v from the root comes past every node that stands on its way. */
  lemma {:induction false} Reaches(s: Tree, f: int, level: int, v: int)
    requires TreeOk(s) && Here(s, f, level, v) && v >= 0
    ensures Prefix(v, s.height) == 0 && View(s, v) == Walk(s, f, level, v)
    decreases s.height - level
  {
    assert NodeOk(s, f);
    if level < s.height {
      StepUp(s, f, level, v);
      Reaches(s, s.home[f].parent, level + 1, v);
    }
  }

  lemma AtRoot(s: Tree, v: int)
    requires TreeOk(s) && s.height >= 1 && Prefix(v, s.height) == 0
    ensures Here(s, s.root.id, s.height, v)
  {
    assert NodeOk(s, s.root.id);
  }

  // ---- Changes inside one node ---------------------------------------------------------------

  function Poke(s: Tree, f: int, n: Node): Tree { s.(nodes := s.nodes[f := n]) }

  ghost predicate KeepsLinks(n: Node, n': Node) {
    && Shaped(n) && Shaped(n')
    && forall i :: 0 <= i < WIDTH && (n.slots[i].Child? || n'.slots[i].Child?) ==> n'.slots[i] == n.slots[i]
  }

  lemma PokeKeeps(s: Tree, f: int, n: Node)
    requires TreeOk(s) && f in s.nodes && f in s.home && KeepsLinks(s.nodes[f], n) && n.count == Count(n.slots)
    requires s.home[f].level > 1 ==> forall i :: 0 <= i < WIDTH ==> !n.slots[i].Item?
    ensures TreeOk(Poke(s, f, n))
  {
    var s' := Poke(s, f, n);
    forall h | h in s'.nodes ensures NodeOk(s', h) {
      assert NodeOk(s, h);
      forall i | 0 <= i < WIDTH ensures SlotOk(s', h, i) { assert SlotOk(s, h, i); }
    }
  }

  /** The cell a change of node f may alter. */
  ghost predicate Touches(s: Tree, f: int, n: Node, w: int)
    requires f in s.nodes && f in s.home && Shaped(s.nodes[f]) && Shaped(n)
  {
    s.home[f].level == 1 && s.home[f].prefix == Prefix(w, 1) && CellOf(n, Digit(w, 1)) != CellOf(s.nodes[f], Digit(w, 1))
  }

  lemma {:induction false} PokeWalk(s: Tree, f: int, n: Node, x: int, level: int, w: int)
    requires TreeOk(s) && f in s.nodes && f in s.home && KeepsLinks(s.nodes[f], n) && Here(s, x, level, w)
    requires !Touches(s, f, n, w)
    ensures Walk(Poke(s, f, n), x, level, w) == Walk(s, x, level, w)
    decreases level
  {
    if level > 1 && s.nodes[x].slots[Digit(w, level)].Child? {
      StepDown(s, x, level, w);
      PokeWalk(s, f, n, s.nodes[x].slots[Digit(w, level)].id, level - 1, w);
    }
  }

  lemma PokeView(s: Tree, f: int, n: Node, w: int)
    requires TreeOk(s) && f in s.nodes && f in s.home && KeepsLinks(s.nodes[f], n) && !Touches(s, f, n, w)
    ensures View(Poke(s, f, n), w) == View(s, w)
  {
    if w >= 0 && Prefix(w, s.height) == 0 && s.height >= 1 {
      AtRoot(s, w);
      PokeWalk(s, f, n, s.root.id, s.height, w);
    }
  }

  /** A node may be tagged if its parent says so; a tag may go where nothing below has it. */
  ghost predicate MayTag(s: Tree, f: int, n: Node)
    requires f in s.nodes && f in s.home && Shaped(s.nodes[f]) && Shaped(n)
  {
    && (forall t :: 0 <= t < TAGS ==>
          NoTag(n.tags[t]) || s.home[f].level == s.height
          || (LinkedBack(s, f) && Shaped(s.nodes[s.home[f].parent]) && s.nodes[s.home[f].parent].tags[t][s.home[f].prefix % WIDTH]))
    && (forall t, i :: 0 <= t < TAGS && 0 <= i < WIDTH && s.nodes[f].tags[t][i] && !n.tags[t][i] ==> Untagged(s, s.nodes[f].slots[i], t))
  }

  ghost predicate Untagged(s: Tree, e: Slot, t: int)
    requires 0 <= t < TAGS
  {
    e.Child? && e.id in s.nodes && Shaped(s.nodes[e.id]) ==> NoTag(s.nodes[e.id].tags[t])
  }

  /** A node may always keep or lose the tags of slots without children. */
  lemma TagAtIs(s: Tree, f: int)
    requires Sound(s) && f in s.nodes
    ensures f in s.home && Shaped(s.nodes[f]) && MayTag(s, f, s.nodes[f])
  {
    assert NodeOk(s, f) && TagAt(s, f);
    if s.home[f].level < s.height { assert NodeOk(s, s.home[f].parent); }
  }

  lemma PokeTags(s: Tree, f: int, n: Node)
    requires TreeOk(s) && TagsOk(s) && f in s.nodes && f in s.home && KeepsLinks(s.nodes[f], n) && MayTag(s, f, n)
    ensures TagsOk(Poke(s, f, n))
  {
    var s' := Poke(s, f, n);
    forall h | h in s'.nodes ensures TagAt(s', h) {
      assert NodeOk(s, h) && TagAt(s, h);
      if s.home[h].level < s.height {
        var p := s.home[h].parent;
        assert NodeOk(s, p) && SlotOk(s, p, s.home[h].prefix % WIDTH);
        forall t | 0 <= t < TAGS ensures NoTag(s'.nodes[h].tags[t]) || s'.nodes[p].tags[t][s.home[h].prefix % WIDTH] {
          assert s.nodes[p].tags[t][s.home[h].prefix % WIDTH] || NoTag(s.nodes[h].tags[t]);
        }
      }
    }
  }

  // ---- Adding and removing nodes -------------------------------------------------------------

  /** A new node below slot i of node f. */
  function LinkNew(s: Tree, f: int, i: int): Tree
    requires f in s.nodes && f in s.home && 0 <= i < |s.nodes[f].slots| && s.free != []
  {
    var g, n := s.free[0], s.nodes[f];
    s.(nodes := s.nodes[g := NewNode()][f := n.(slots := n.slots[i := Child(g)], count := n.count + 1)], free := s.free[1..],
       home := s.home[g := Home(s.home[f].level - 1, s.home[f].prefix * WIDTH + i, f)])
  }

  function Unlink(s: Tree, f: int, i: int, g: int): Tree
    requires f in s.nodes && 0 <= i < |s.nodes[f].slots|
  {
    var n := s.nodes[f];
    s.(nodes := s.nodes[f := n.(slots := n.slots[i := Null], count := n.count - 1)] - {g}, free := [g] + s.free, home := s.home - {g})
  }

  /** A new root above the old one, tagged where the old one has a tagged slot. */
  function TopNode(s: Tree): Node {
    var has := (t: int) => 0 <= t < TAGS && s.height > 0 && s.root.Child? && s.root.id in s.nodes
                           && t < |s.nodes[s.root.id].tags| && !NoTag(s.nodes[s.root.id].tags[t]);
    Node(1, NewNode().slots[0 := s.root], [NoBits()[0 := has(0)], NoBits()[0 := has(1)]])
  }

  function Push(s: Tree): Tree
    requires s.free != []
  {
    var g := s.free[0];
    var home := s.home[g := Home(s.height + 1, 0, g)];
    Tree(s.height + 1, Child(g), s.nodes[g := TopNode(s)], s.free[1..],
         if s.root.Child? && s.root.id in s.home then home[s.root.id := s.home[s.root.id].(parent := g)] else home)
  }

  lemma SlotOf(p: int, i: int)
    requires 0 <= i < WIDTH
    ensures (p * WIDTH + i) % WIDTH == i
  {
  }

  ghost predicate CanLink(s: Tree, f: int, i: int) {
    && TreeOk(s) && f in s.nodes && f in s.home && s.home[f].level > 1 && Shaped(s.nodes[f]) && 0 <= i < WIDTH
    && s.nodes[f].slots[i] == Null && s.free != [] && s.free[0] !in s.nodes
  }

  lemma LinkNodeOk(s: Tree, f: int, i: int, h: int)
    requires CanLink(s, f, i) && h in LinkNew(s, f, i).nodes
    ensures NodeOk(LinkNew(s, f, i), h)
  {
    var s', g := LinkNew(s, f, i), s.free[0];
    assert NodeOk(s, f);
    CountUpdate(s.nodes[f].slots, i, Child(g));
    if h == g {
      SlotOf(s.home[f].prefix, i);
      CountZero(NewNode().slots);
    } else {
      assert NodeOk(s, h);
      forall j | 0 <= j < WIDTH ensures SlotOk(s', h, j) { assert SlotOk(s, h, j); }
    }
  }

  lemma LinkTagAt(s: Tree, f: int, i: int, h: int)
    requires CanLink(s, f, i) && TagsOk(s) && h in LinkNew(s, f, i).nodes
    ensures TagAt(LinkNew(s, f, i), h)
  {
    if h != s.free[0] { assert NodeOk(s, h) && TagAt(s, h); }
  }

  lemma LinkKeeps(s: Tree, f: int, i: int)
    requires CanLink(s, f, i)
    ensures TreeOk(LinkNew(s, f, i))
    ensures TagsOk(s) ==> TagsOk(LinkNew(s, f, i))
  {
    var s' := LinkNew(s, f, i);
    forall h | h in s'.nodes ensures NodeOk(s', h) { LinkNodeOk(s, f, i, h); }
    forall x | x in s'.free ensures x !in s'.nodes { assert x in s.free; }
    if TagsOk(s) { forall h | h in s'.nodes ensures TagAt(s', h) { LinkTagAt(s, f, i, h); } }
  }

  lemma {:induction false} LinkWalk(s: Tree, f: int, i: int, x: int, level: int, w: int)
    requires CanLink(s, f, i) && Here(s, x, level, w)
    ensures Walk(LinkNew(s, f, i), x, level, w) == Walk(s, x, level, w)
    decreases level
  {
    var s', g := LinkNew(s, f, i), s.free[0];
    var j := Digit(w, level);
    if level > 1 && s.nodes[x].slots[j].Child? {
      StepDown(s, x, level, w);
      LinkWalk(s, f, i, s.nodes[x].slots[j].id, level - 1, w);
    } else if x == f && j == i {
      assert s'.nodes[g] == NewNode();
    }
  }

  lemma LinkView(s: Tree, f: int, i: int, w: int)
    requires CanLink(s, f, i)
    ensures View(LinkNew(s, f, i), w) == View(s, w)
  {
    if w >= 0 && Prefix(w, s.height) == 0 && s.height >= 1 {
      AtRoot(s, w);
      LinkWalk(s, f, i, s.root.id, s.height, w);
    }
  }

  ghost predicate CanUnlink(s: Tree, f: int, i: int, g: int) {
    && TreeOk(s) && f in s.nodes && Shaped(s.nodes[f]) && 0 <= i < WIDTH && s.nodes[f].slots[i] == Child(g)
    && g in s.nodes && Blank(s.nodes[g].slots) && g in s.home && f in s.home && f != g && s.home[g].level < s.height
  }

  lemma UnlinkNodeOk(s: Tree, f: int, i: int, g: int, h: int)
    requires CanUnlink(s, f, i, g) && h in Unlink(s, f, i, g).nodes
    ensures NodeOk(Unlink(s, f, i, g), h)
  {
    var s' := Unlink(s, f, i, g);
    assert NodeOk(s, f) && NodeOk(s, g) && SlotOk(s, f, i) && NodeOk(s, h);
    CountUpdate(s.nodes[f].slots, i, Null);
    forall j | 0 <= j < WIDTH ensures SlotOk(s', h, j) { assert SlotOk(s, h, j); }
  }

  lemma UnlinkTagAt(s: Tree, f: int, i: int, g: int, h: int)
    requires CanUnlink(s, f, i, g) && TagsOk(s) && h in Unlink(s, f, i, g).nodes
    ensures TagAt(Unlink(s, f, i, g), h)
  {
    assert NodeOk(s, h) && TagAt(s, h);
  }

  lemma UnlinkKeeps(s: Tree, f: int, i: int, g: int)
    requires CanUnlink(s, f, i, g)
    ensures TreeOk(Unlink(s, f, i, g))
    ensures TagsOk(s) ==> TagsOk(Unlink(s, f, i, g))
  {
    var s' := Unlink(s, f, i, g);
    assert NodeOk(s, f) && NodeOk(s, g) && SlotOk(s, f, i);
    forall h | h in s'.nodes ensures NodeOk(s', h) { UnlinkNodeOk(s, f, i, g, h); }
    if TagsOk(s) { forall h | h in s'.nodes ensures TagAt(s', h) { UnlinkTagAt(s, f, i, g, h); } }
  }

  lemma {:induction false} UnlinkWalk(s: Tree, f: int, i: int, g: int, x: int, level: int, w: int)
    requires CanUnlink(s, f, i, g) && Here(s, x, level, w) && x != g
    ensures Walk(Unlink(s, f, i, g), x, level, w) == Walk(s, x, level, w)
    decreases level
  {
    var j := Digit(w, level);
    if level > 1 && s.nodes[x].slots[j].Child? {
      StepDown(s, x, level, w);
      var y := s.nodes[x].slots[j].id;
      assert NodeOk(s, f) && NodeOk(s, x) && SlotOk(s, f, i) && SlotOk(s, x, j);
      if y != g {
        UnlinkWalk(s, f, i, g, y, level - 1, w);
      } else {
        assert x == f && j == i;
        assert s.nodes[g].slots[Digit(w, level - 1)] == Null;
      }
    }
  }

  lemma UnlinkView(s: Tree, f: int, i: int, g: int, w: int)
    requires CanUnlink(s, f, i, g)
    ensures View(Unlink(s, f, i, g), w) == View(s, w)
  {
    assert NodeOk(s, g);
    if w >= 0 && Prefix(w, s.height) == 0 && s.height >= 1 {
      AtRoot(s, w);
      UnlinkWalk(s, f, i, g, s.root.id, s.height, w);
    }
  }

  ghost predicate CanPush(s: Tree) {
    TreeOk(s) && s.root != Null && s.height < MAX_HEIGHT && s.free != [] && s.free[0] !in s.nodes
  }

  lemma TopNodeOk(s: Tree)
    requires CanPush(s)
    ensures NodeOk(Push(s), s.free[0])
  {
    var s', g := Push(s), s.free[0];
    CountZero(NewNode().slots);
    CountUpdate(NewNode().slots, 0, s.root);
    if s.height >= 1 { assert NodeOk(s, s.root.id); }
    forall i | 0 <= i < WIDTH ensures SlotOk(s', g, i) { }
  }

  lemma PushNodeOk(s: Tree, h: int)
    requires CanPush(s) && h in s.nodes
    ensures NodeOk(Push(s), h)
  {
    var s' := Push(s);
    assert NodeOk(s, h);
    forall i | 0 <= i < WIDTH ensures SlotOk(s', h, i) { assert SlotOk(s, h, i); }
  }

  lemma PushTagAt(s: Tree, h: int)
    requires CanPush(s) && TagsOk(s) && h in Push(s).nodes
    ensures TagAt(Push(s), h)
  {
    if h != s.free[0] { assert NodeOk(s, h) && TagAt(s, h); }
  }

  lemma PushKeeps(s: Tree)
    requires CanPush(s)
    ensures TreeOk(Push(s)) && (TagsOk(s) ==> TagsOk(Push(s)))
  {
    var s' := Push(s);
    forall h | h in s'.nodes ensures NodeOk(s', h) { if h == s.free[0] { TopNodeOk(s); } else { PushNodeOk(s, h); } }
    forall x | x in s'.free ensures x !in s'.nodes { assert x in s.free; }
    if TagsOk(s) { forall h | h in s'.nodes ensures TagAt(s', h) { PushTagAt(s, h); } }
  }

  lemma {:induction false} PushWalk(s: Tree, x: int, level: int, w: int)
    requires CanPush(s) && Here(s, x, level, w)
    ensures Walk(Push(s), x, level, w) == Walk(s, x, level, w)
    decreases level
  {
    if level > 1 && s.nodes[x].slots[Digit(w, level)].Child? {
      StepDown(s, x, level, w);
      PushWalk(s, s.nodes[x].slots[Digit(w, level)].id, level - 1, w);
    }
  }

  /** Growing the tree changes no cell. */
  lemma PushView(s: Tree, w: int)
    requires CanPush(s)
    ensures View(Push(s), w) == View(s, w)
  {
    if w >= 0 {
      Fits(w, s.height);
      var g := s.free[0];
      if Prefix(w, s.height) == 0 && s.height >= 1 {
        AtRoot(s, w);
        PushWalk(s, s.root.id, s.height, w);
      }
    }
  }

  // ---- Tags on items only --------------------------------------------------------------------

  lemma PokeClean(s: Tree, f: int, n: Node)
    requires TreeOk(s) && Clean(s) && f in s.nodes && f in s.home && Shaped(n)
    requires s.home[f].level == 1 ==>
               forall i, t :: 0 <= i < WIDTH && 0 <= t < TAGS && n.tags[t][i] ==> n.slots[i] != Null
    ensures Clean(Poke(s, f, n))
  {
    var s' := Poke(s, f, n);
    forall h | h in s'.nodes ensures CleanAt(s', h) { assert NodeOk(s, h) && CleanAt(s, h); }
  }

  lemma LinkClean(s: Tree, f: int, i: int)
    requires CanLink(s, f, i) && Clean(s)
    ensures Clean(LinkNew(s, f, i))
  {
    var s' := LinkNew(s, f, i);
    forall h | h in s'.nodes ensures CleanAt(s', h) { if h != s.free[0] { assert NodeOk(s, h) && CleanAt(s, h); } }
  }

  lemma UnlinkClean(s: Tree, f: int, i: int, g: int)
    requires CanUnlink(s, f, i, g) && Clean(s)
    ensures Clean(Unlink(s, f, i, g))
  {
    var s' := Unlink(s, f, i, g);
    assert NodeOk(s, f) && SlotOk(s, f, i);
    forall h | h in s'.nodes ensures CleanAt(s', h) { assert NodeOk(s, h) && CleanAt(s, h); }
  }

  lemma PushClean(s: Tree)
    requires CanPush(s) && Clean(s)
    ensures Clean(Push(s))
  {
    var s' := Push(s);
    forall h | h in s'.nodes ensures CleanAt(s', h) { if h != s.free[0] { assert NodeOk(s, h) && CleanAt(s, h); } }
  }

  // ---- Steps ---------------------------------------------------------------------------------

  ghost predicate SameAt(s: Tree, s': Tree, w: int) { View(s', w) == View(s, w) }

  /** All blocks there are: those of nodes and those of the allocator. */
  ghost function Blocks(s: Tree): set<int> { s.nodes.Keys + set f | f in s.free }

  /** A step that keeps the tree, the blocks and every cell, except perhaps the one at v. */
  ghost predicate SoundBut(s: Tree, s': Tree, v: int) {
    Sound(s') && Blocks(s') == Blocks(s) && forall w {:trigger SameAt(s, s', w)} :: w != v ==> SameAt(s, s', w)
  }

  ghost predicate StepBut(s: Tree, s': Tree, v: int) { SoundBut(s, s', v) && (Clean(s) ==> Clean(s')) }

  ghost predicate Step(s: Tree, s': Tree) {
    && Sound(s') && Blocks(s') == Blocks(s) && (Clean(s) ==> Clean(s'))
    && forall w {:trigger SameAt(s, s', w)} :: SameAt(s, s', w)
  }

  // The first free block becomes a node, or a node a free block.
  lemma BlocksTaken(s: Tree, s': Tree)
    requires s.free != [] && s'.free == s.free[1..] && s'.nodes.Keys == s.nodes.Keys + {s.free[0]}
    ensures Blocks(s') == Blocks(s)
  {
    assert s.free == [s.free[0]] + s.free[1..];
  }

  lemma BlocksFreed(s: Tree, s': Tree, g: int)
    requires g in s.nodes && s'.free == [g] + s.free && s'.nodes.Keys == s.nodes.Keys - {g}
    ensures Blocks(s') == Blocks(s)
  {
  }

  lemma StepTrans(s: Tree, s1: Tree, s2: Tree)
    requires Step(s, s1) && Step(s1, s2)
    ensures Step(s, s2)
  {
    forall w ensures SameAt(s, s2, w) { assert SameAt(s, s1, w) && SameAt(s1, s2, w); }
  }

  lemma StepButTrans(s: Tree, s1: Tree, s2: Tree, v: int)
    requires (Step(s, s1) && StepBut(s1, s2, v)) || (StepBut(s, s1, v) && Step(s1, s2))
    ensures StepBut(s, s2, v)
  {
    forall w | w != v ensures SameAt(s, s2, w) { assert SameAt(s, s1, w) && SameAt(s1, s2, w); }
  }

  lemma SoundButTrans(s: Tree, s1: Tree, s2: Tree, v: int)
    requires Step(s, s1) && SoundBut(s1, s2, v)
    ensures SoundBut(s, s2, v)
  {
    forall w | w != v ensures SameAt(s, s2, w) { assert SameAt(s, s1, w) && SameAt(s1, s2, w); }
  }

  lemma LinkStep(s: Tree, f: int, level: int, v: int)
    requires Sound(s) && Here(s, f, level, v) && level > 1 && s.nodes[f].slots[Digit(v, level)] == Null && s.free != []
    ensures CanLink(s, f, Digit(v, level)) && Step(s, LinkNew(s, f, Digit(v, level)))
    ensures Here(LinkNew(s, f, Digit(v, level)), s.free[0], level - 1, v)
  {
    assert s.free[0] in s.free;
    var i := Digit(v, level);
    var s' := LinkNew(s, f, i);
    LinkKeeps(s, f, i);
    if Clean(s) { LinkClean(s, f, i); }
    forall w ensures SameAt(s, s', w) { LinkView(s, f, i, w); }
    BlocksTaken(s, s');
    assert NodeOk(s', s.free[0]);
  }

  lemma PushStep(s: Tree)
    requires Sound(s) && s.root != Null && s.height < MAX_HEIGHT && s.free != []
    ensures CanPush(s) && Step(s, Push(s))
  {
    assert s.free[0] in s.free;
    var s' := Push(s);
    PushKeeps(s);
    if Clean(s) { PushClean(s); }
    forall w ensures SameAt(s, s', w) { PushView(s, w); }
    BlocksTaken(s, s');
  }

  lemma UnlinkStep(s: Tree, f: int, level: int, v: int, g: int)
    requires Sound(s) && Here(s, f, level, v) && s.nodes[f].slots[Digit(v, level)] == Child(g)
    requires g in s.nodes && s.nodes[g].count == 0
    ensures CanUnlink(s, f, Digit(v, level), g) && Step(s, Unlink(s, f, Digit(v, level), g))
  {
    var i := Digit(v, level);
    StepDown(s, f, level, v);
    assert NodeOk(s, g);
    CountZero(s.nodes[g].slots);
    var s' := Unlink(s, f, i, g);
    UnlinkKeeps(s, f, i, g);
    if Clean(s) { UnlinkClean(s, f, i, g); }
    forall w ensures SameAt(s, s', w) { UnlinkView(s, f, i, g, w); }
    BlocksFreed(s, s', g);
  }

  /** A tree of height 0 has no nodes: its root is its only cell. */
  lemma RootStep(s: Tree, e: Slot)
    requires Sound(s) && s.height == 0 && !e.Child?
    ensures StepBut(s, s.(root := e), 0)
    ensures View(s, 0) == if s.root.Item? then Present(s.root.x, [false, false]) else Absent
    ensures View(s.(root := e), 0) == if e.Item? then Present(e.x, [false, false]) else Absent
  {
    var s' := s.(root := e);
    forall w | w != 0 ensures SameAt(s, s', w) { }
  }

  /** The tree left when the last item of a tree of height 1 is gone. */
  function Collapse(s: Tree): Tree
    requires s.root.Child?
  {
    Tree(0, Null, s.nodes - {s.root.id}, [s.root.id] + s.free, s.home - {s.root.id})
  }

  lemma CollapseStep(s: Tree)
    requires Sound(s) && s.height == 1 && s.nodes[s.root.id].count == 0
    ensures Step(s, Collapse(s))
  {
    var s', g := Collapse(s), s.root.id;
    assert NodeOk(s, g);
    CountZero(s.nodes[g].slots);
    forall f | f in s.nodes ensures f == g { assert NodeOk(s, f); }
    assert s'.nodes == map[];
    assert s'.home.Keys == {};
    forall w ensures SameAt(s, s', w) { if w >= 0 { Fits(w, 1); } }
    BlocksFreed(s, s', g);
  }

  function WithBit(n: Node, t: int, i: int, b: bool): Node
    requires Shaped(n) && 0 <= t < TAGS && 0 <= i < WIDTH
  {
    n.(tags := n.tags[t := n.tags[t][i := b]])
  }

  /** Tag bits above the leaves do not show. */
  lemma BitStep(s: Tree, f: int, level: int, v: int, t: int, b: bool)
    requires Sound(s) && Here(s, f, level, v) && level > 1 && 0 <= t < TAGS && MayTag(s, f, WithBit(s.nodes[f], t, Digit(v, level), b))
    ensures Step(s, Poke(s, f, WithBit(s.nodes[f], t, Digit(v, level), b)))
  {
    var n := WithBit(s.nodes[f], t, Digit(v, level), b);
    var s' := Poke(s, f, n);
    assert NodeOk(s, f);
    forall i | 0 <= i < WIDTH ensures !n.slots[i].Item? { assert SlotOk(s, f, i); }
    PokeKeeps(s, f, n);
    PokeTags(s, f, n);
    if Clean(s) { PokeClean(s, f, n); }
    forall w ensures SameAt(s, s', w) { PokeView(s, f, n, w); }
  }

  ghost predicate TagsStand(n: Node, i: int)
    requires Shaped(n) && 0 <= i < WIDTH
  {
    n.slots[i] == Null ==> !n.tags[0][i] && !n.tags[1][i]
  }

  /** A change of one slot of a leaf, with its tags, shows at one index. */
  lemma LeafStep(s: Tree, f: int, v: int, n: Node)
    requires Sound(s) && Here(s, f, 1, v) && v >= 0 && Shaped(n) && n.count == Count(n.slots) && MayTag(s, f, n)
    requires forall i :: 0 <= i < WIDTH && i != Digit(v, 1) ==>
               n.slots[i] == s.nodes[f].slots[i] && n.tags[0][i] == s.nodes[f].tags[0][i] && n.tags[1][i] == s.nodes[f].tags[1][i]
    requires !n.slots[Digit(v, 1)].Child?
    ensures Clean(s) && TagsStand(n, Digit(v, 1)) ==> Clean(Poke(s, f, n))
    ensures SoundBut(s, Poke(s, f, n), v) && View(Poke(s, f, n), v) == CellOf(n, Digit(v, 1)) && View(s, v) == CellOf(s.nodes[f], Digit(v, 1))
  {
    var s' := Poke(s, f, n);
    assert NodeOk(s, f);
    forall i | 0 <= i < WIDTH ensures !s.nodes[f].slots[i].Child? { assert SlotOk(s, f, i); }
    PokeKeeps(s, f, n);
    PokeTags(s, f, n);
    if Clean(s) && TagsStand(n, Digit(v, 1)) {
      assert CleanAt(s, f);
      PokeClean(s, f, n);
    }
    forall w | w != v ensures SameAt(s, s', w) {
      assert Prefix(w, 1) == w / WIDTH && Prefix(v, 1) == v / WIDTH && Prefix(w, 0) == w && Prefix(v, 0) == v;
      PokeView(s, f, n, w);
    }
    Reaches(s, f, 1, v);
    Reaches(s', f, 1, v);
  }

  // ---- Ordered lookup ------------------------------------------------------------------------

  function Span(k: int): (n: int)
    requires k >= 0
    ensures n > 0
    decreases k, 0
  {
    if k == 0 then 1 else Span(k - 1) * WIDTH
  }

  /** The indices below a node are one interval. */
  lemma {:induction false} Interval(p: int, k: int, w: int)
    requires k >= 0
    ensures Prefix(w, k) == p <==> p * Span(k) <= w < p * Span(k) + Span(k)
    decreases k
  {
    if k > 0 {
      PrefixLow(w, k);
      Interval(p, k - 1, w / WIDTH);
      assert p * Span(k) == (p * Span(k - 1)) * WIDTH;
    }
  }

  /** Without its bit a slot has no tagged item below. */
  lemma {:induction false} BitClear(s: Tree, f: int, level: int, v: int, t: int)
    requires Sound(s) && Here(s, f, level, v) && 0 <= t < TAGS && !s.nodes[f].tags[t][Digit(v, level)]
    ensures Walk(s, f, level, v).Present? ==> |Walk(s, f, level, v).tags| == TAGS && !Walk(s, f, level, v).tags[t]
    decreases level
  {
    var e := s.nodes[f].slots[Digit(v, level)];
    if level > 1 && e.Child? {
      StepDown(s, f, level, v);
      assert NodeOk(s, f) && SlotOk(s, f, Digit(v, level)) && NodeOk(s, e.id) && TagAt(s, e.id);
      BitClear(s, e.id, level - 1, v, t);
    }
  }

  /** An item asked for: any item, or one with tag t. */
  ghost predicate Matches(s: Tree, t: int, w: int) {
    View(s, w).Present? && (t < 0 || (t < |View(s, w).tags| && View(s, w).tags[t]))
  }

  ghost predicate Hit(s: Tree, t: int, first: int, lo: int, hi: int, w: int) { lo <= w < hi && first <= w && Matches(s, t, w) }

  predicate Ascending(q: seq<int>) { forall i, j :: 0 <= i < j < |q| ==> q[i] < q[j] }

  /** The indices of all items asked for in an interval, in order. */
  ghost predicate Listed(s: Tree, t: int, first: int, lo: int, hi: int, ids: seq<int>) {
    Ascending(ids) && forall w {:trigger Hit(s, t, first, lo, hi, w)} :: Hit(s, t, first, lo, hi, w) <==> w in ids
  }

  ghost predicate ItemAt(s: Tree, w: int, x: int) { View(s, w).Present? && View(s, w).x == x }

  ghost predicate ItemsOf(s: Tree, ids: seq<int>, items: seq<int>) {
    |items| == |ids| && forall k {:trigger ItemAt(s, ids[k], items[k])} :: 0 <= k < |ids| ==> ItemAt(s, ids[k], items[k])
  }

  lemma ListedMore(s: Tree, t: int, first: int, lo: int, mid: int, hi: int, a: seq<int>, b: seq<int>)
    requires lo <= mid <= hi && Listed(s, t, first, lo, mid, a) && Listed(s, t, first, mid, hi, b)
    ensures Listed(s, t, first, lo, hi, a + b)
  {
    forall w ensures Hit(s, t, first, lo, hi, w) <==> w in a + b {
      assert Hit(s, t, first, lo, mid, w) <==> w in a;
      assert Hit(s, t, first, mid, hi, w) <==> w in b;
    }
    forall i, j | 0 <= i < j < |a + b| ensures (a + b)[i] < (a + b)[j] {
      if i < |a| && j >= |a| {
        assert Hit(s, t, first, lo, mid, a[i]) && Hit(s, t, first, mid, hi, b[j - |a|]);
      }
    }
  }

  lemma ItemsMore(s: Tree, ids: seq<int>, items: seq<int>, ids': seq<int>, items': seq<int>)
    requires ItemsOf(s, ids, items) && ItemsOf(s, ids', items')
    ensures ItemsOf(s, ids + ids', items + items')
  {
    var a, b := ids + ids', items + items';
    forall k | 0 <= k < |a| ensures ItemAt(s, a[k], b[k]) {
      if k < |ids| { assert ItemAt(s, ids[k], items[k]); } else { assert ItemAt(s, ids'[k - |ids|], items'[k - |ids|]); }
    }
  }

  /** The answer to a lookup so far: the items and, for the proof, their indices. */
  ghost predicate Found(s: Tree, t: int, first: int, lo: int, hi: int, ids: seq<int>, items: seq<int>) {
    ItemsOf(s, ids, items) && Listed(s, t, first, lo, hi, ids)
  }

  lemma FoundMore(s: Tree, t: int, first: int, lo: int, mid: int, hi: int, a: seq<int>, x: seq<int>, b: seq<int>, y: seq<int>)
    requires lo <= mid <= hi && Found(s, t, first, lo, mid, a, x) && Found(s, t, first, mid, hi, b, y)
    ensures Found(s, t, first, lo, hi, a + b, x + y)
  {
    ListedMore(s, t, first, lo, mid, hi, a, b);
    ItemsMore(s, a, x, b, y);
  }

  /** Where slot i starts. */
  function SlotStart(base: int, level: int, i: int): int
    requires level >= 1
  {
    base + i * Span(level - 1)
  }

  lemma SlotStarts(base: int, level: int, i: int)
    requires level >= 1 && 0 <= i < WIDTH
    ensures SlotStart(base, level, 0) == base && SlotStart(base, level, WIDTH) == base + Span(level)
    ensures base <= SlotStart(base, level, i) && SlotStart(base, level, i + 1) == SlotStart(base, level, i) + Span(level - 1)
    ensures SlotStart(base, level, i + 1) <= base + Span(level)
  {
    Steps(i, Span(level - 1));
  }

  lemma Steps(i: int, n: int)
    requires 0 <= i < WIDTH && n >= 1
    ensures (i + 1) * n == i * n + n && 0 <= i * n && (i + 1) * n <= WIDTH * n
  {
    MulMono(0, i, n);
    MulMono(i + 1, WIDTH, n);
    assert (i + 1) * n == i * n + n;
  }

  lemma SlotDigit(p: int, level: int, i: int, w: int)
    requires level >= 1 && 0 <= i < WIDTH && w >= 0
    requires var lo := SlotStart(p * Span(level), level, i); lo <= w < lo + Span(level - 1)
    ensures Prefix(w, level) == p && Digit(w, level) == i
  {
    ChildBase(p, level, i);
    Interval(p * WIDTH + i, level - 1, w);
  }

  /** What slot i of a node stands for. */
  lemma SlotRange(s: Tree, f: int, level: int, i: int, w: int)
    requires TreeOk(s) && f in s.nodes && f in s.home && s.home[f].level == level && 1 <= level <= s.height && 0 <= i < WIDTH && w >= 0
    requires var lo := SlotStart(s.home[f].prefix * Span(level), level, i); lo <= w < lo + Span(level - 1)
    ensures Here(s, f, level, w) && Digit(w, level) == i && View(s, w) == Walk(s, f, level, w)
  {
    assert NodeOk(s, f);
    SlotDigit(s.home[f].prefix, level, i, w);
    Reaches(s, f, level, w);
  }

  lemma ChildBase(p: int, level: int, i: int)
    requires level >= 1
    ensures SlotStart(p * Span(level), level, i) == (p * WIDTH + i) * Span(level - 1)
  {
    assert p * Span(level) == p * WIDTH * Span(level - 1);
    assert (p * WIDTH + i) * Span(level - 1) == p * WIDTH * Span(level - 1) + i * Span(level - 1);
  }

  /** A slot that is passed over has nothing to offer. */
  lemma SlotSkipped(s: Tree, t: int, first: int, f: int, level: int, i: int, lo: int, hi: int)
    requires Sound(s) && f in s.nodes && f in s.home && s.home[f].level == level && 1 <= level <= s.height && 0 <= i < WIDTH
    requires Shaped(s.nodes[f]) && t < TAGS && lo >= 0
    requires lo == SlotStart(s.home[f].prefix * Span(level), level, i) && hi == lo + Span(level - 1)
    requires (t >= 0 && !s.nodes[f].tags[t][i]) || s.nodes[f].slots[i] == Null || hi <= first
    ensures Listed(s, t, first, lo, hi, [])
  {
    forall w ensures !Hit(s, t, first, lo, hi, w) {
      if lo <= w < hi {
        SlotRange(s, f, level, i, w);
        if t >= 0 && !s.nodes[f].tags[t][i] { BitClear(s, f, level, w, t); }
      }
    }
  }

  // ---- The code ------------------------------------------------------------------------------

  /** Nodes above a level are as they were. */
  ghost predicate KeptAt(s: Tree, s': Tree, x: int)
    requires x in s.nodes && x in s.home
  {
    x in s'.nodes && x in s'.home && s'.nodes[x] == s.nodes[x] && s'.home[x] == s.home[x]
  }

  ghost predicate KeptAbove(s: Tree, s': Tree, level: int) {
    && s'.height == s.height && s'.root == s.root
    && forall x {:trigger KeptAt(s, s', x)} :: x in s.nodes && x in s.home && s.home[x].level > level ==> KeptAt(s, s', x)
  }

  /** The walk for v, recorded from the root down. */
  ghost predicate OnPath(s: Tree, path: seq<int>, v: int, k: int)
    requires 0 <= k < |path|
  {
    && k < s.height && Here(s, path[k], s.height - k, v)
    && (k + 1 < |path| ==> s.nodes[path[k]].slots[Digit(v, s.height - k)] == Child(path[k + 1]))
  }

  ghost predicate PathOk(s: Tree, path: seq<int>, v: int) {
    forall k {:trigger OnPath(s, path, v, k)} :: 0 <= k < |path| ==> OnPath(s, path, v, k)
  }

  lemma PathKept(s: Tree, s': Tree, path: seq<int>, v: int, d: int)
    requires PathOk(s, path, v) && 0 <= d < |path| && KeptAbove(s, s', s.height - d)
    ensures PathOk(s', path[..d], v)
  {
    forall k | 0 <= k < d ensures OnPath(s', path[..d], v, k) {
      assert OnPath(s, path, v, k) && KeptAt(s, s', path[k]);
    }
  }

  lemma PathLonger(s: Tree, path: seq<int>, v: int, g: int)
    requires PathOk(s, path, v) && path != [] && |path| < s.height && OnPath(s, path, v, |path| - 1)
    requires s.nodes[path[|path| - 1]].slots[Digit(v, s.height - |path| + 1)] == Child(g) && Here(s, g, s.height - |path|, v)
    ensures PathOk(s, path + [g], v)
  {
    var longer := path + [g];
    forall k | 0 <= k < |longer| ensures OnPath(s, longer, v, k) {
      if k < |path| { assert OnPath(s, path, v, k); }
    }
  }

  lemma MayClear(s: Tree, f: int, t: int, i: int)
    requires Sound(s) && f in s.nodes && Shaped(s.nodes[f]) && 0 <= t < TAGS && 0 <= i < WIDTH && Untagged(s, s.nodes[f].slots[i], t)
    ensures f in s.home && MayTag(s, f, WithBit(s.nodes[f], t, i, false))
  {
    TagAtIs(s, f);
    var n := WithBit(s.nodes[f], t, i, false);
    forall u | 0 <= u < TAGS && NoTag(s.nodes[f].tags[u]) ensures NoTag(n.tags[u]) { }
  }

  lemma MaySet(s: Tree, f: int, t: int, i: int)
    requires Sound(s) && f in s.nodes && Shaped(s.nodes[f]) && 0 <= t < TAGS && 0 <= i < WIDTH && f in s.home
    requires s.home[f].level < s.height ==> TaggedAbove(s, f, t)
    ensures MayTag(s, f, WithBit(s.nodes[f], t, i, true))
  {
    TagAtIs(s, f);
    assert NodeOk(s, f);
  }

  ghost predicate TaggedAbove(s: Tree, f: int, t: int)
    requires f in s.home && 0 <= t < TAGS
  {
    LinkedBack(s, f) && Shaped(s.nodes[s.home[f].parent]) && s.nodes[s.home[f].parent].tags[t][s.home[f].prefix % WIDTH]
  }

  lemma KeptTrans(s: Tree, s1: Tree, s2: Tree, level: int)
    requires KeptAbove(s, s1, level) && KeptAbove(s1, s2, level)
    ensures KeptAbove(s, s2, level)
  {
    forall x | x in s.nodes && x in s.home && s.home[x].level > level ensures KeptAt(s, s2, x) {
      assert KeptAt(s, s1, x) && KeptAt(s1, s2, x);
    }
  }

  lemma PokeKept(s: Tree, f: int, n: Node)
    requires f in s.nodes && f in s.home
    ensures KeptAbove(s, Poke(s, f, n), s.home[f].level)
  {
    var s' := Poke(s, f, n);
    forall x | x in s.nodes && x in s.home && s.home[x].level > s.home[f].level ensures KeptAt(s, s', x) { }
  }

  lemma UnlinkKept(s: Tree, f: int, i: int, g: int)
    requires CanUnlink(s, f, i, g)
    ensures KeptAbove(s, Unlink(s, f, i, g), s.home[f].level)
  {
    var s' := Unlink(s, f, i, g);
    assert NodeOk(s, f) && SlotOk(s, f, i);
    forall x | x in s.nodes && x in s.home && s.home[x].level > s.home[f].level ensures KeptAt(s, s', x) { }
  }

  lemma LeafMayDrop(s: Tree, f: int, n: Node, i: int)
    requires Sound(s) && f in s.nodes && f in s.home && s.home[f].level == 1 && Shaped(s.nodes[f]) && Shaped(n) && 0 <= i < WIDTH
    requires n.tags == [s.nodes[f].tags[0][i := false], s.nodes[f].tags[1][i := false]] && !s.nodes[f].slots[i].Child?
    ensures MayTag(s, f, n)
  {
    TagAtIs(s, f);
    forall u | 0 <= u < TAGS && NoTag(s.nodes[f].tags[u]) ensures NoTag(n.tags[u]) { }
  }

  /** Half-way down with tag t set on every node passed. */
  ghost predicate Marking(s0: Tree, s: Tree, node: int, h: int, v: int, t: int) {
    && Step(s0, s) && Here(s, node, h, v) && 0 <= t < TAGS && s.height == s0.height
    && (h < s.height ==> TaggedAbove(s, node, t))
  }

  lemma MarkingDown(s0: Tree, s: Tree, node: int, h: int, v: int, t: int)
    requires Marking(s0, s, node, h, v, t) && s.nodes[node].tags[t][Digit(v, h)] && s.nodes[node].slots[Digit(v, h)].Child?
    ensures Marking(s0, s, s.nodes[node].slots[Digit(v, h)].id, h - 1, v, t)
  {
    StepDown(s, node, h, v);
    assert NodeOk(s, node) && SlotOk(s, node, Digit(v, h)) && NodeOk(s, s.nodes[node].slots[Digit(v, h)].id);
  }

  ghost predicate Marked(s0: Tree, s: Tree, v: int, t: int, b: bool)
    requires 0 <= t < TAGS
  {
    && SoundBut(s0, s, v) && (Clean(s0) && (View(s0, v).Present? || !b) ==> Clean(s))
    && View(s, v) == WithTag(View(s0, v), t, b)
  }

  lemma LeafMarked(s: Tree, leaf: int, v: int, t: int, b: bool)
    requires Sound(s) && Here(s, leaf, 1, v) && v >= 0 && 0 <= t < TAGS && (b && 1 < s.height ==> TaggedAbove(s, leaf, t))
    ensures var s' := Poke(s, leaf, WithBit(s.nodes[leaf], t, Digit(v, 1), b));
      Marked(s, s', v, t, b) && KeptAbove(s, s', 1) && Here(s', leaf, 1, v)
  {
    var i := Digit(v, 1);
    assert NodeOk(s, leaf) && SlotOk(s, leaf, i);
    if b { MaySet(s, leaf, t, i); } else { MayClear(s, leaf, t, i); }
    var n := WithBit(s.nodes[leaf], t, i, b);
    LeafStep(s, leaf, v, n);
    PokeKept(s, leaf, n);
    if Clean(s) { assert CleanAt(s, leaf); }
  }

  lemma MarkedAfter(s0: Tree, s: Tree, s': Tree, v: int, t: int, b: bool)
    requires 0 <= t < TAGS && Step(s0, s) && Marked(s, s', v, t, b)
    ensures Marked(s0, s', v, t, b)
  {
    assert SameAt(s0, s, v);
    SoundButTrans(s0, s, s', v);
  }

  lemma MarkedTrans(s0: Tree, s: Tree, s': Tree, v: int, t: int, b: bool)
    requires 0 <= t < TAGS && Marked(s0, s, v, t, b) && Step(s, s')
    ensures Marked(s0, s', v, t, b)
  {
    assert SameAt(s, s', v);
    forall w | w != v ensures SameAt(s0, s', w) { assert SameAt(s0, s, w) && SameAt(s, s', w); }
  }

  lemma TidyStep(s0: Tree, s: Tree, cur: int, level: int, v: int, g: int)
    requires Step(s0, s) && KeptAbove(s0, s, level) && Here(s, cur, level, v) && s.nodes[cur].slots[Digit(v, level)] == Child(g)
    requires g in s.nodes && s.nodes[g].count == 0
    ensures var s' := Unlink(s, cur, Digit(v, level), g); Step(s0, s') && KeptAbove(s0, s', level)
  {
    var i := Digit(v, level);
    UnlinkStep(s, cur, level, v, g);
    UnlinkKept(s, cur, i, g);
    StepTrans(s0, s, Unlink(s, cur, i, g));
    KeptTrans(s0, s, Unlink(s, cur, i, g), level);
  }

  /** A tag bit has something tagged below it. */
  ghost predicate Tight(s: Tree, f: int, i: int, t: int)
    requires f in s.nodes && Shaped(s.nodes[f]) && 0 <= i < WIDTH && 0 <= t < TAGS
  {
    var e := s.nodes[f].slots[i];
    s.nodes[f].tags[t][i] ==> e.Child? && e.id in s.nodes && t < |s.nodes[e.id].tags| && !NoTag(s.nodes[e.id].tags[t])
  }

  ghost predicate TightChild(s: Tree, f: int, i: int, t: int)
    requires f in s.nodes && Shaped(s.nodes[f]) && 0 <= i < WIDTH && 0 <= t < TAGS
  {
    s.nodes[f].slots[i].Child? ==> Tight(s, f, i, t)
  }

  /** Nodes, homes and slots are the same; only tag bits may differ. */
  ghost predicate SameLinks(s: Tree, s': Tree) {
    && s'.height == s.height && s'.root == s.root && s'.home == s.home && s'.nodes.Keys == s.nodes.Keys
    && forall x :: x in s.nodes && Shaped(s.nodes[x]) ==> Shaped(s'.nodes[x]) && s'.nodes[x].slots == s.nodes[x].slots
  }

  /** Along a recorded walk the tag bits have something tagged below them. */
  ghost predicate TightOn(s: Tree, path: seq<int>, v: int, t: int, k: int)
    requires 0 <= k < |path| && 0 <= t < TAGS
  {
    OnPath(s, path, v, k) && Tight(s, path[k], Digit(v, s.height - k), t)
  }

  lemma SamePath(s: Tree, s': Tree, path: seq<int>, v: int)
    requires PathOk(s, path, v) && SameLinks(s, s')
    ensures PathOk(s', path, v)
  {
    forall k | 0 <= k < |path| ensures OnPath(s', path, v, k) { assert OnPath(s, path, v, k); }
  }

  // What changes at one node of a walk does not matter further down.
  lemma TightKept(s: Tree, s': Tree, path: seq<int>, v: int, t: int, d: int, k: int)
    requires PathOk(s, path, v) && PathOk(s', path, v) && s'.height == s.height && 0 <= t < TAGS && 0 <= d < k < |path| - 1
    requires forall x :: x in s'.nodes && x != path[d] ==> x in s.nodes && s'.nodes[x] == s.nodes[x]
    requires TightOn(s, path, v, t, k)
    ensures TightOn(s', path, v, t, k)
  {
    assert OnPath(s, path, v, d) && OnPath(s, path, v, k + 1) && OnPath(s', path, v, k) && OnPath(s', path, v, k + 1);
  }

  // Above a node with a tag all bits on the way are set, and so each has a tag below.
  lemma {:induction false} TightAbove(s: Tree, path: seq<int>, v: int, t: int, d: int, k: int)
    requires Sound(s) && PathOk(s, path, v) && 0 <= t < TAGS && 0 <= k <= d < |path| - 1
    requires path[d + 1] in s.nodes && Shaped(s.nodes[path[d + 1]]) && !NoTag(s.nodes[path[d + 1]].tags[t])
    ensures TightOn(s, path, v, t, k) && !NoTag(s.nodes[path[k]].tags[t])
    decreases d - k
  {
    assert OnPath(s, path, v, k) && OnPath(s, path, v, k + 1) && NodeOk(s, path[k]) && NodeOk(s, path[k + 1]);
    if k < d { TightAbove(s, path, v, t, d, k + 1); }
    var i := Digit(v, s.height - k);
    assert SlotOk(s, path[k], i);
    SlotOf(s.home[path[k]].prefix, i);
    assert TagAt(s, path[k + 1]);
    assert s.nodes[path[k]].tags[t][i];
  }

  // A leaf of v is linked from a node at every level above.
  lemma {:induction false} WayUp(s: Tree, f: int, level: int, v: int, k: int) returns (g: int)
    requires TreeOk(s) && Here(s, f, level, v) && level < k <= s.height
    ensures Here(s, g, k, v) && s.nodes[g].slots[Digit(v, k)].Child?
    decreases k - level
  {
    assert NodeOk(s, f);
    StepUp(s, f, level, v);
    g := s.home[f].parent;
    assert NodeOk(s, g);
    if level + 1 < k { g := WayUp(s, g, level + 1, v, k); }
  }

  lemma NoLeaf(s: Tree, g: int, k: int, v: int, f: int)
    requires TreeOk(s) && Here(s, g, k, v) && s.nodes[g].slots[Digit(v, k)] == Null && 1 < k
    ensures !Here(s, f, 1, v)
  {
    if Here(s, f, 1, v) {
      var h := WayUp(s, f, 1, v, k);
      OneHere(s, g, h, k, v);
    }
  }

  /** What a clean-up leaves of an inner node on the way to v: no empty child there, and no tag bit over an untagged one. */
  ghost predicate TidyAt(s: Tree, f: int, level: int, v: int)
    requires Here(s, f, level, v)
  {
    var i := Digit(v, level);
    var e := s.nodes[f].slots[i];
    && (e.Child? ==> e.id in s.nodes && s.nodes[e.id].count > 0)
    && forall t {:trigger TightChild(s, f, i, t)} :: 0 <= t < TAGS ==> TightChild(s, f, i, t)
  }

  /** The nodes on the way to v from some level up to below another one are tidy. */
  ghost predicate TidyWay(s: Tree, v: int, low: int, high: int) {
    forall f, level {:trigger Here(s, f, level, v)} :: low <= level < high && Here(s, f, level, v) ==> TidyAt(s, f, level, v)
  }

  /** No node but one has changed, and none has come. */
  ghost predicate OnlyNode(s: Tree, s': Tree, cur: int) {
    s'.height == s.height && forall x :: x in s'.nodes && x in s'.home && x != cur ==> x in s.nodes && x in s.home && s'.nodes[x] == s.nodes[x] && s'.home[x] == s.home[x]
  }

  lemma OnlyTrans(s: Tree, s1: Tree, s2: Tree, cur: int)
    requires OnlyNode(s, s1, cur) && OnlyNode(s1, s2, cur) && TreeOk(s1)
    ensures OnlyNode(s, s2, cur)
  {
  }

  // One node further up the way.
  lemma TidyMore(s: Tree, s': Tree, cur: int, level: int, v: int, low: int)
    requires Sound(s) && Sound(s') && OnlyNode(s, s', cur) && TidyWay(s, v, low, level) && 1 < low <= level
    requires Here(s, cur, level, v) && Here(s', cur, level, v) && TidyAt(s', cur, level, v)
    ensures TidyWay(s', v, low, level + 1)
  {
    forall f, k | low <= k < level + 1 && Here(s', f, k, v) ensures TidyAt(s', f, k, v) {
      if f != cur {
        assert Here(s, f, k, v);
        TidySame(s, s', cur, level, f, k, v);
      }
    }
  }

  lemma TidySame(s: Tree, s': Tree, cur: int, level: int, f: int, k: int, v: int)
    requires Sound(s) && Sound(s') && OnlyNode(s, s', cur) && Here(s, cur, level, v) && Here(s', cur, level, v) && f != cur && 1 < k <= level
    requires Here(s, f, k, v) && Here(s', f, k, v) && (k < level ==> TidyAt(s, f, k, v))
    ensures TidyAt(s', f, k, v)
  {
    if k == level {
      OneHere(s, f, cur, k, v);
    } else {
      var i := Digit(v, k);
      assert NodeOk(s', f) && SlotOk(s', f, i);
      var e := s'.nodes[f].slots[i];
      assert e.Child? ==> e.id != cur && s'.nodes[e.id] == s.nodes[e.id];
      forall t | 0 <= t < TAGS ensures TightChild(s', f, i, t) { assert TightChild(s, f, i, t); }
    }
  }

  // Only one node stands at a level on the way to an index.
  lemma {:induction false} OneHere(s: Tree, f: int, g: int, level: int, v: int)
    requires TreeOk(s) && Here(s, f, level, v) && Here(s, g, level, v)
    ensures f == g
    decreases s.height - level
  {
    assert NodeOk(s, f) && NodeOk(s, g);
    if level < s.height {
      var p, q := s.home[f].parent, s.home[g].parent;
      assert NodeOk(s, p) && NodeOk(s, q);
      assert SlotOk(s, p, s.home[f].prefix % WIDTH) && SlotOk(s, q, s.home[g].prefix % WIDTH);
      OneHere(s, p, q, level + 1, v);
    }
  }

  function WithTag(c: Cell, t: int, b: bool): Cell
    requires 0 <= t < TAGS
  {
    match c
    case Absent => Absent
    case Present(x, tags) => if |tags| == TAGS then Present(x, tags[t := b]) else c
  }

  datatype Outcome = Stored | Refused | Fault

  datatype Call = InsertCall(v: int, x: int) | DeleteCall(v: int) | TagSetCall(v: int, t: int) | TagClearCall(v: int, t: int)

  predicate Proper(c: Call) { c.v >= 0 && (c.TagSetCall? || c.TagClearCall? ==> 0 <= c.t < TAGS) }

  /** The same call on a finite map of cells. */
  function FlatStep(m: map<int, Cell>, c: Call, done: bool): map<int, Cell>
    requires Proper(c)
  {
    match c
    case InsertCall(v, x) => if done then m[v := Present(x, [false, false])] else m
    case DeleteCall(v) => m - {v}
    case TagSetCall(v, t) => if done && v in m then m[v := WithTag(m[v], t, true)] else m
    case TagClearCall(v, t) => if v in m then m[v := WithTag(m[v], t, false)] else m
  }

  ghost predicate CellIs(s: Tree, m: map<int, Cell>, w: int) {
    if w in m then View(s, w) == m[w] && m[w].Present? else View(s, w) == Absent
  }

  /** The tree is the map. */
  ghost predicate Represents(s: Tree, m: map<int, Cell>) {
    Sound(s) && Clean(s) && forall w {:trigger CellIs(s, m, w)} :: CellIs(s, m, w)
  }

  lemma RepresentsAfter(s: Tree, s': Tree, m: map<int, Cell>, m': map<int, Cell>, v: int)
    requires Represents(s, m) && SoundBut(s, s', v) && Clean(s') && CellIs(s', m', v)
    requires forall w :: w != v ==> (w in m' <==> w in m) && (w in m ==> m'[w] == m[w])
    ensures Represents(s', m')
  {
    forall w ensures CellIs(s', m', w) {
      if w != v { assert SameAt(s, s', w) && CellIs(s, m, w); }
    }
  }

  class Radix {
    var height: int
    var root: Slot
    var nodes: map<int, Node>
    var free: seq<int>
    ghost var home: map<int, Home>

    constructor (blocks: seq<int>)
      requires NoDup(blocks)
      ensures Sound(Now()) && Clean(Now()) && Blocks(Now()) == (set b | b in blocks) && forall v :: View(Now(), v) == Absent
    {
      height, root, nodes, free, home := 0, Null, map[], blocks, map[];
    }

    ghost function Now(): Tree
      reads this
    {
      Tree(height, root, nodes, free, home)
    }

    method PushRoot()
      requires free != []
      modifies this
      ensures Now() == Push(old(Now()))
    {
      ghost var s := Now();
      var g, top := free[0], TopNode(Tree(height, root, nodes, free, map[]));
      assert top == TopNode(s);
      home := Push(s).home;
      nodes := nodes[g := top];
      root, height, free := Child(g), height + 1, free[1..];
    }

    method PushTo(h: int) returns (ok: bool)
      requires Sound(Now()) && root != Null && height < h <= MAX_HEIGHT
      modifies this
      ensures Step(old(Now()), Now()) && root != Null && (if ok then height == h else free == [])
    {
      ghost var s0 := Now();
      while true
        invariant Step(s0, Now()) && root != Null && height < h <= MAX_HEIGHT
        decreases h - height
      {
        if free == [] { return false; }
        ghost var s := Now();
        PushStep(s);
        PushRoot();
        StepTrans(s0, s, Now());
        if height >= h { break; }
      }
      return true;
    }

    method Extend(v: int) returns (ok: bool)
      requires Sound(Now()) && v > MaxIndex(height)
      modifies this
      ensures old(root) != Null ==> Step(old(Now()), Now()) && (ok ==> Prefix(v, height) == 0 && height >= 1)
      ensures ok ==> height >= 1 && MaxIndex(height - 1) < v <= MaxIndex(height)
      ensures old(root) == Null ==> root == Null && (ok ==> height >= 1 && v <= MaxIndex(MAX_HEIGHT)) && (!ok ==> Now() == old(Now()))
      ensures !ok ==> v > MaxIndex(MAX_HEIGHT) || (free == [] && old(root) != Null)
    {
      var h := height;
      while v > MaxIndex(h)
        invariant height <= h <= MAX_HEIGHT && (h == height ==> v > MaxIndex(h)) && (h > height ==> v > MaxIndex(h - 1))
        decreases MAX_HEIGHT - h
      {
        h := h + 1;
        if h >= MAX_HEIGHT + 1 { return false; }
      }
      MaxMonotone(h);
      if root == Null {
        height := h;
        return true;
      }
      ok := PushTo(h);
      Fits(v, h);
    }

    /** A missing node on the way to v is made. */
    method Grow(node: int, h: int, v: int) returns (g: int)
      requires Sound(Now()) && Here(Now(), node, h, v) && h > 1 && nodes[node].slots[Digit(v, h)] == Null && free != []
      modifies this`nodes, this`free, this`home
      ensures Step(old(Now()), Now()) && Here(Now(), g, h - 1, v)
    {
      ghost var s := Now();
      var i := Digit(v, h);
      LinkStep(s, node, h, v);
      g := free[0];
      home := LinkNew(s, node, i).home;
      nodes := nodes[g := NewNode()];
      nodes := nodes[node := nodes[node].(slots := nodes[node].slots[i := Child(g)], count := nodes[node].count + 1)];
      free := free[1..];
      assert Now() == LinkNew(s, node, i);
    }

    /** Down to the leaf of v, making the nodes that are missing. */
    method Descend(v: int) returns (node: int, ok: bool)
      requires Sound(Now()) && height >= 1 && Here(Now(), root.id, height, v)
      modifies this`nodes, this`free, this`home
      ensures Step(old(Now()), Now()) && (if ok then Here(Now(), node, 1, v) else free == [])
    {
      ghost var s0 := Now();
      var h := height;
      node := root.id;
      while h > 1
        invariant Step(s0, Now()) && Here(Now(), node, h, v)
        decreases h
      {
        ghost var s := Now();
        var i := Digit(v, h);
        assert NodeOk(s, node) && SlotOk(s, node, i);
        if nodes[node].slots[i] == Null {
          if free == [] { return 0, false; }
          node := Grow(node, h, v);
          StepTrans(s0, s, Now());
        } else {
          StepDown(s, node, h, v);
          node := nodes[node].slots[i].id;
        }
        h := h - 1;
      }
      ok := true;
    }

    method Fill(leaf: int, v: int, x: int) returns (r: Outcome)
      requires Sound(Now()) && Here(Now(), leaf, 1, v) && v >= 0
      modifies this`nodes
      ensures r == Stored ==> StepBut(old(Now()), Now(), v) && View(old(Now()), v) == Absent
      ensures r == Stored ==> View(Now(), v).Present? && View(Now(), v).x == x
      ensures r == Stored && Clean(old(Now())) ==> View(Now(), v) == Present(x, [false, false])
      ensures r == Refused ==> Now() == old(Now()) && View(Now(), v) != Absent
      ensures r != Fault
    {
      ghost var s := Now();
      var i, n := Digit(v, 1), nodes[leaf];
      assert NodeOk(s, leaf) && SlotOk(s, leaf, i);
      Reaches(s, leaf, 1, v);
      if n.slots[i] != Null { return Refused; }
      CountUpdate(n.slots, i, Item(x));
      var n' := n.(slots := n.slots[i := Item(x)], count := n.count + 1);
      TagAtIs(s, leaf);
      LeafStep(s, leaf, v, n');
      if Clean(s) { assert CleanAt(s, leaf); }
      nodes := nodes[leaf := n'];
      return Stored;
    }

    /** An insert into a tree that is tall enough. */
    method InsertBelow(v: int, x: int) returns (r: Outcome)
      requires Sound(Now()) && v >= 0 && height >= 1 && Prefix(v, height) == 0
      modifies this`nodes, this`free, this`home
      ensures r == Stored ==> StepBut(old(Now()), Now(), v) && View(old(Now()), v) == Absent
      ensures r == Stored ==> View(Now(), v).Present? && View(Now(), v).x == x
      ensures r == Stored && Clean(old(Now())) ==> View(Now(), v) == Present(x, [false, false])
      ensures r == Refused ==> Step(old(Now()), Now()) && (View(Now(), v) != Absent || free == [])
      ensures r != Fault
    {
      ghost var s0 := Now();
      AtRoot(s0, v);
      var leaf, ok := Descend(v);
      ghost var s1 := Now();
      assert SameAt(s0, s1, v);
      if !ok { return Refused; }
      r := Fill(leaf, v, x);
      if r == Stored { StepButTrans(s0, s1, Now(), v); }
    }

    /** Adds one cell to a tree; a refusal leaves every cell alone. An index above 0 in an empty tree is followed into
        the missing root. */
    method Insert(v: int, x: int) returns (r: Outcome)
      requires Sound(Now()) && v >= 0
      modifies this
      ensures r == Fault <==> old(root) == Null && 0 < v <= MaxIndex(MAX_HEIGHT)
      ensures r == Stored ==> StepBut(old(Now()), Now(), v) && View(old(Now()), v) == Absent
      ensures r == Stored ==> View(Now(), v).Present? && View(Now(), v).x == x
      ensures r == Stored && Clean(old(Now())) ==> View(Now(), v) == Present(x, [false, false])
      ensures r == Refused ==> Step(old(Now()), Now())
      ensures r == Refused ==> View(Now(), v) != Absent || v > MaxIndex(MAX_HEIGHT) || free == []
    {
      ghost var s0 := Now();
      Fits(v, height);
      if v > MaxIndex(height) {
        var ok := Extend(v);
        if !ok { return Refused; }
        if root == Null { return Fault; }
        ghost var s1 := Now();
        assert SameAt(s0, s1, v);
        r := InsertBelow(v, x);
        if r == Stored { StepButTrans(s0, s1, Now(), v); } else { StepTrans(s0, s1, Now()); }
      } else if height == 0 {
        RootStep(s0, Item(x));
        if root != Null { return Refused; }
        root := Item(x);
        assert Now() == s0.(root := Item(x));
        return Stored;
      } else {
        r := InsertBelow(v, x);
      }
    }

    /** The item at an index, and its absence. */
    method Lookup(v: int) returns (e: Slot)
      requires Sound(Now()) && v >= 0
      ensures match View(Now(), v) { case Present(x, _) => e == Item(x) case Absent => e == Null }
    {
      ghost var s := Now();
      Fits(v, height);
      if root == Null || v > MaxIndex(height) { return Null; }
      if height == 0 { return if v == 0 then root else Null; }
      AtRoot(s, v);
      var node, h := root.id, height;
      while h > 0
        invariant 1 <= h <= height && Here(s, node, h, v) && Walk(s, node, h, v) == View(s, v)
        decreases h
      {
        var i := Digit(v, h);
        assert NodeOk(s, node) && SlotOk(s, node, i);
        if nodes[node].slots[i] == Null { return Null; }
        if h == 1 { return nodes[node].slots[i]; }
        StepDown(s, node, h, v);
        node := nodes[node].slots[i].id;
        h := h - 1;
      }
      return Null;
    }

    /** Records the walk for v down to the leaves, as far as there are nodes. */
    method Record(v: int) returns (path: seq<int>)
      requires Sound(Now()) && height >= 1 && Prefix(v, height) == 0
      ensures 1 <= |path| <= height && PathOk(Now(), path, v) && path[0] == root.id
      ensures |path| < height ==> OnPath(Now(), path, v, |path| - 1) && nodes[path[|path| - 1]].slots[Digit(v, height - |path| + 1)] == Null
    {
      ghost var s := Now();
      AtRoot(s, v);
      path := [root.id];
      var node, h := root.id, height;
      while h > 1
        invariant 1 <= h <= height && |path| == height - h + 1 && path[|path| - 1] == node && path[0] == root.id
        invariant Here(s, node, h, v) && PathOk(s, path, v)
        decreases h
      {
        var i := Digit(v, h);
        assert NodeOk(s, node) && SlotOk(s, node, i) && OnPath(s, path, v, |path| - 1);
        if nodes[node].slots[i] == Null { return; }
        StepDown(s, node, h, v);
        PathLonger(s, path, v, nodes[node].slots[i].id);
        node := nodes[node].slots[i].id;
        path := path + [node];
        h := h - 1;
      }
    }

    /** Clears a tag bit above an untagged subtree. */
    method TidyTag(cur: int, level: int, v: int, t: int)
      requires Sound(Now()) && Here(Now(), cur, level, v) && 1 < level && 0 <= t < TAGS
      modifies this`nodes
      ensures Step(old(Now()), Now()) && KeptAbove(old(Now()), Now(), level) && Here(Now(), cur, level, v)
      ensures OnlyNode(old(Now()), Now(), cur) && nodes[cur].slots == old(nodes)[cur].slots && Tight(Now(), cur, Digit(v, level), t)
      ensures forall u :: 0 <= u < TAGS && u != t && Tight(old(Now()), cur, Digit(v, level), u) ==> Tight(Now(), cur, Digit(v, level), u)
    {
      ghost var s := Now();
      var i, n := Digit(v, level), nodes[cur];
      assert NodeOk(s, cur) && SlotOk(s, cur, i) && SameAt(s, s, v);
      if n.slots[i].Child? { assert NodeOk(s, n.slots[i].id); }
      if n.tags[t][i] && (n.slots[i] == Null || NoTag(nodes[n.slots[i].id].tags[t])) {
        MayClear(s, cur, t, i);
        BitStep(s, cur, level, v, t, false);
        PokeKept(s, cur, WithBit(n, t, i, false));
        nodes := nodes[cur := WithBit(n, t, i, false)];
        assert Now() == Poke(s, cur, WithBit(n, t, i, false));
      } else {
        assert Step(s, s);
      }
    }

    method TidyTags(cur: int, level: int, v: int)
      requires Sound(Now()) && Here(Now(), cur, level, v) && 1 < level
      modifies this`nodes
      ensures Step(old(Now()), Now()) && KeptAbove(old(Now()), Now(), level) && Here(Now(), cur, level, v)
      ensures OnlyNode(old(Now()), Now(), cur) && nodes[cur].slots == old(nodes)[cur].slots
      ensures forall t :: 0 <= t < TAGS ==> Tight(Now(), cur, Digit(v, level), t)
    {
      ghost var s0 := Now();
      for t := 0 to TAGS
        invariant Step(s0, Now()) && KeptAbove(s0, Now(), level) && Here(Now(), cur, level, v)
        invariant OnlyNode(s0, Now(), cur) && nodes[cur].slots == s0.nodes[cur].slots
        invariant forall u :: 0 <= u < t ==> Tight(Now(), cur, Digit(v, level), u)
      {
        ghost var s := Now();
        TidyTag(cur, level, v, t);
        StepTrans(s0, s, Now());
        KeptTrans(s0, s, Now(), level);
        OnlyTrans(s0, s, Now(), cur);
      }
    }

    /** One node on the way up from a deleted item: tag bits without tags below go, and so does an empty child. */
    method Tidy(cur: int, level: int, v: int)
      requires Sound(Now()) && Here(Now(), cur, level, v) && 1 < level
      modifies this`nodes, this`free, this`home
      ensures Step(old(Now()), Now()) && KeptAbove(old(Now()), Now(), level)
      ensures OnlyNode(old(Now()), Now(), cur) && Here(Now(), cur, level, v) && TidyAt(Now(), cur, level, v)
    {
      ghost var s0 := Now();
      TidyTags(cur, level, v);
      ghost var s := Now();
      var i, n := Digit(v, level), nodes[cur];
      assert NodeOk(s, cur) && SlotOk(s, cur, i);
      if n.slots[i] != Null {
        assert NodeOk(s, n.slots[i].id);
        CountZero(nodes[n.slots[i].id].slots);
      }
      forall t | 0 <= t < TAGS ensures TightChild(s, cur, i, t) { assert Tight(s, cur, i, t); }
      if n.slots[i] != Null && nodes[n.slots[i].id].count == 0 {
        TidyStep(s0, s, cur, level, v, n.slots[i].id);
        StepDown(s, cur, level, v);
        FreeChild(cur, i, n.slots[i].id);
        OnlyTrans(s0, s, Now(), cur);
        forall t | 0 <= t < TAGS ensures TightChild(Now(), cur, i, t) { }
      }
    }

    /** An empty child is taken out of its slot and freed. */
    method FreeChild(cur: int, i: int, g: int)
      requires cur in nodes && g != cur && 0 <= i < |nodes[cur].slots|
      modifies this`nodes, this`free, this`home
      ensures Now() == Unlink(old(Now()), cur, i, g)
    {
      var n := nodes[cur];
      nodes := nodes[cur := n.(slots := n.slots[i := Null], count := n.count - 1)];
      nodes := nodes - {g};
      free := [g] + free;
      home := home - {g};
    }

    /** The item of a leaf slot is taken out, with its tags. */
    method Empty(leaf: int, v: int) returns (e: Slot)
      requires Sound(Now()) && Here(Now(), leaf, 1, v) && v >= 0 && nodes[leaf].slots[Digit(v, 1)] != Null
      modifies this`nodes
      ensures StepBut(old(Now()), Now(), v) && View(Now(), v) == Absent && KeptAbove(old(Now()), Now(), 1)
      ensures View(old(Now()), v).Present? && e == Item(View(old(Now()), v).x)
      ensures Here(Now(), leaf, 1, v)
    {
      ghost var s := Now();
      var i, n := Digit(v, 1), nodes[leaf];
      assert NodeOk(s, leaf) && SlotOk(s, leaf, i);
      e := n.slots[i];
      var n' := n.(slots := n.slots[i := Null], count := n.count - 1, tags := [n.tags[0][i := false], n.tags[1][i := false]]);
      CountUpdate(n.slots, i, Null);
      TagAtIs(s, leaf);
      LeafMayDrop(s, leaf, n', i);
      LeafStep(s, leaf, v, n');
      PokeKept(s, leaf, n');
      nodes := nodes[leaf := n'];
      assert Now() == Poke(s, leaf, n');
    }

    /**
     Takes out one cell and nothing else. Returns the item, or null if there was none. On the way to it no inner node
     below the root keeps an empty child or a tag bit over an untagged one; a tree of one node goes with its last item, a
     taller one keeps its root.
     */
    method Delete(v: int) returns (e: Slot)
      requires Sound(Now()) && v >= 0
      modifies this
      ensures StepBut(old(Now()), Now(), v) && View(Now(), v) == Absent
      ensures match View(old(Now()), v) { case Present(x, _) => e == Item(x) case Absent => e == Null && Now() == old(Now()) }
      ensures e != Null ==> TidyWay(Now(), v, 2, height)
      ensures old(height) >= 2 ==> height == old(height) && root == old(root)
      ensures old(height) == 1 && e != Null ==>
                if root == Null then height == 0 else height == 1 && root.Child? && root.id in nodes && nodes[root.id].count > 0
    {
      ghost var s0 := Now();
      Fits(v, height);
      if root == Null || v > MaxIndex(height) { return Null; }
      if height == 0 {
        RootStep(s0, Null);
        e := root;
        root := Null;
        assert Now() == s0.(root := Null);
        return;
      }
      var path := Record(v);
      var d := |path| - 1;
      assert OnPath(s0, path, v, d);
      Reaches(s0, path[d], height - d, v);
      if |path| < height { return Null; }
      if nodes[path[d]].slots[Digit(v, 1)] == Null { return Null; }
      e := Empty(path[d], v);
      PathKept(s0, Now(), path, v, d);
      if height >= 2 {
        assert OnPath(s0, path, v, 0);
        assert KeptAt(s0, Now(), root.id);
      }
      Ascend(path[..d], v, s0);
      ShrinkRoot(v, s0);
    }

    ghost predicate RootUsed(v: int)
      reads this
    {
      height >= 2 ==> root.Child? && root.id in nodes && Shaped(nodes[root.id]) && nodes[root.id].slots[Digit(v, height)] != Null
    }

    /** One step of the way up: the child that the node at the end of the path leads to. */
    method AscendOne(path: seq<int>, v: int, ghost s0: Tree)
      requires Sound(Now()) && PathOk(Now(), path, v) && v >= 0 && RootUsed(v) && 2 <= |path| < height
      requires StepBut(s0, Now(), v) && View(Now(), v) == Absent && TidyWay(Now(), v, 2, height - |path| + 1)
      modifies this`nodes, this`free, this`home
      ensures StepBut(s0, Now(), v) && View(Now(), v) == Absent && RootUsed(v) && PathOk(Now(), path[..|path| - 1], v)
      ensures height == old(height) && root == old(root) && TidyWay(Now(), v, 2, height - |path| + 2)
    {
      ghost var s := Now();
      var d := |path| - 1;
      assert OnPath(s, path, v, d);
      Tidy(path[d], height - d, v);
      TidyMore(s, Now(), path[d], height - d, v, 2);
      StepButTrans(s0, s, Now(), v);
      assert SameAt(s, Now(), v);
      PathKept(s, Now(), path, v, d);
      assert KeptAt(s, Now(), root.id);
    }

    /** The way up. The root is left alone: its tag bits stay, and so do its empty children. */
    method Ascend(path: seq<int>, v: int, ghost s0: Tree)
      requires Sound(Now()) && PathOk(Now(), path, v) && height >= 1 && |path| == height - 1 && v >= 0 && RootUsed(v)
      requires StepBut(s0, Now(), v) && View(Now(), v) == Absent
      modifies this`nodes, this`free, this`home
      ensures StepBut(s0, Now(), v) && View(Now(), v) == Absent && RootUsed(v)
      ensures height == old(height) && root == old(root) && TidyWay(Now(), v, 2, height)
    {
      var d := |path| - 1;
      assert path[..|path|] == path;
      while d >= 1
        invariant -1 <= d < |path| && PathOk(Now(), path[..d + 1], v) && RootUsed(v)
        invariant StepBut(s0, Now(), v) && View(Now(), v) == Absent
        invariant height == old(height) && root == old(root) && (d >= 0 || |path| == 0) && (d >= 0 ==> TidyWay(Now(), v, 2, height - d))
        decreases d
      {
        AscendOne(path[..d + 1], v, s0);
        assert path[..d + 1][..d] == path[..d];
        d := d - 1;
      }
    }

    method ShrinkRoot(v: int, ghost s0: Tree)
      requires Sound(Now()) && height >= 1 && RootUsed(v) && StepBut(s0, Now(), v) && View(Now(), v) == Absent
      requires TidyWay(Now(), v, 2, height)
      modifies this
      ensures StepBut(s0, Now(), v) && View(Now(), v) == Absent && TidyWay(Now(), v, 2, height)
      ensures old(height) >= 2 ==> height == old(height) && root == old(root)
      ensures old(height) == 1 ==> if root == Null then height == 0 else height == 1 && root.Child? && root.id in nodes && nodes[root.id].count > 0
    {
      ghost var s := Now();
      assert NodeOk(s, root.id);
      CountZero(nodes[root.id].slots);
      if nodes[root.id].count == 0 {
        CollapseStep(s);
        free := [root.id] + free;
        nodes := nodes - {root.id};
        home := home - {root.id};
        root, height := Null, 0;
        assert Now() == Collapse(s);
        StepButTrans(s0, s, Now(), v);
        assert SameAt(s, Now(), v);
      }
    }

    /** One node on the way down: its bit is set. */
    method MarkInner(node: int, h: int, v: int, t: int, ghost s0: Tree)
      requires Marking(s0, Now(), node, h, v, t) && 1 < h
      modifies this`nodes
      ensures Marking(s0, Now(), node, h, v, t) && nodes[node].tags[t][Digit(v, h)]
    {
      ghost var s := Now();
      var i := Digit(v, h);
      MaySet(s, node, t, i);
      BitStep(s, node, h, v, t, true);
      nodes := nodes[node := WithBit(nodes[node], t, i, true)];
      assert Now() == Poke(s, node, WithBit(s.nodes[node], t, i, true));
      StepTrans(s0, s, Now());
    }

    /** Tags an index: of all cells only that of v may change, and it does if there is an item and a node to tag. */
    method TagSet(v: int, t: int)
      requires Sound(Now()) && v >= 0 && 0 <= t < TAGS
      modifies this`nodes
      ensures SoundBut(old(Now()), Now(), v) && (Clean(old(Now())) && View(old(Now()), v).Present? ==> Clean(Now()))
      ensures View(Now(), v) == if height >= 1 then WithTag(View(old(Now()), v), t, true) else View(old(Now()), v)
    {
      ghost var s0 := Now();
      assert Step(s0, s0);
      Fits(v, height);
      if root == Null || v > MaxIndex(height) || height == 0 { return; }
      AtRoot(s0, v);
      var node, h := root.id, height;
      while h > 1
        invariant Marking(s0, Now(), node, h, v, t)
        decreases h
      {
        MarkInner(node, h, v, t, s0);
        ghost var s := Now();
        assert NodeOk(s, node) && SlotOk(s, node, Digit(v, h)) && SameAt(s0, s, v);
        if nodes[node].slots[Digit(v, h)] == Null {
          Reaches(s, node, h, v);
          return;
        }
        MarkingDown(s0, s, node, h, v, t);
        node := nodes[node].slots[Digit(v, h)].id;
        h := h - 1;
      }
      MarkLeaf(node, v, t, true, s0);
    }

    /** The tag bit of a leaf slot is set or cleared. */
    method MarkLeaf(leaf: int, v: int, t: int, b: bool, ghost s0: Tree)
      requires Step(s0, Now()) && Here(Now(), leaf, 1, v) && v >= 0 && 0 <= t < TAGS && (b && 1 < height ==> TaggedAbove(Now(), leaf, t))
      modifies this`nodes
      ensures Marked(s0, Now(), v, t, b) && KeptAbove(old(Now()), Now(), 1) && Here(Now(), leaf, 1, v) && SameLinks(old(Now()), Now())
    {
      ghost var s := Now();
      LeafMarked(s, leaf, v, t, b);
      nodes := nodes[leaf := WithBit(nodes[leaf], t, Digit(v, 1), b)];
      assert Now() == Poke(s, leaf, WithBit(s.nodes[leaf], t, Digit(v, 1), b));
      MarkedAfter(s0, s, Now(), v, t, b);
    }

    /** One node on the way up from an untagged slot: its bit goes unless something else below is still tagged. */
    method Unmark(cur: int, level: int, v: int, t: int) returns (more: bool)
      requires Sound(Now()) && Here(Now(), cur, level, v) && 1 < level && 0 <= t < TAGS
      modifies this`nodes
      ensures Step(old(Now()), Now()) && SameLinks(old(Now()), Now()) && Tight(Now(), cur, Digit(v, level), t)
      ensures forall x :: x in nodes && x != cur ==> nodes[x] == old(nodes)[x]
      ensures !more ==> var e := nodes[cur].slots[Digit(v, level)];
                Now() == old(Now()) && e.Child? && e.id in nodes && Shaped(nodes[e.id]) && !NoTag(nodes[e.id].tags[t])
    {
      ghost var s := Now();
      var i, n := Digit(v, level), nodes[cur];
      assert NodeOk(s, cur) && SlotOk(s, cur, i);
      if n.slots[i].Child? { assert NodeOk(s, n.slots[i].id); }
      more := n.slots[i] == Null || NoTag(nodes[n.slots[i].id].tags[t]);
      if more {
        MayClear(s, cur, t, i);
        BitStep(s, cur, level, v, t, false);
        nodes := nodes[cur := WithBit(n, t, i, false)];
        assert Now() == Poke(s, cur, WithBit(n, t, i, false));
      } else {
        assert Step(s, s);
      }
    }

    /** Untags one index and no other. On the way to a leaf no tag bit is left without a tag below it. */
    method TagClear(v: int, t: int) returns (ghost path: seq<int>)
      requires Sound(Now()) && v >= 0 && 0 <= t < TAGS
      modifies this`nodes
      ensures Marked(old(Now()), Now(), v, t, false)
      ensures path == [] ==> forall f :: !Here(Now(), f, 1, v)
      ensures path != [] ==> |path| == height && PathOk(Now(), path, v) && forall k :: 0 <= k < height - 1 ==> TightOn(Now(), path, v, t, k)
    {
      ghost var s0 := Now();
      path := [];
      Fits(v, height);
      if root == Null || v > MaxIndex(height) || height == 0 {
        forall f ensures !Here(s0, f, 1, v) { if Here(s0, f, 1, v) { Reaches(s0, f, 1, v); } }
        return;
      }
      var way := Record(v);
      var d := |way| - 1;
      assert OnPath(s0, way, v, d);
      if |way| < height {
        Reaches(s0, way[d], height - d, v);
        forall f ensures !Here(s0, f, 1, v) { NoLeaf(s0, way[d], height - d, v, f); }
        return;
      }
      assert Step(s0, s0);
      path := way;
      MarkLeaf(way[d], v, t, false, s0);
      SamePath(s0, Now(), way, v);
      UnmarkUp(way, v, t, s0);
    }

    /** The way up from the untagged leaf slot. */
    method UnmarkUp(path: seq<int>, v: int, t: int, ghost s0: Tree)
      requires 0 <= t < TAGS && Marked(s0, Now(), v, t, false) && 1 <= |path| == height && PathOk(Now(), path, v)
      modifies this`nodes
      ensures Marked(s0, Now(), v, t, false) && height == old(height) && PathOk(Now(), path, v)
      ensures forall k :: 0 <= k < height - 1 ==> TightOn(Now(), path, v, t, k)
    {
      var d := |path| - 2;
      while d >= 0
        invariant -1 <= d < |path| - 1 && |path| == height == old(height) && PathOk(Now(), path, v)
        invariant Marked(s0, Now(), v, t, false) && forall k :: d < k < height - 1 ==> TightOn(Now(), path, v, t, k)
        decreases d
      {
        var more := UnmarkOne(path, d, v, t, s0);
        if !more { return; }
        d := d - 1;
      }
    }

    method UnmarkOne(path: seq<int>, d: int, v: int, t: int, ghost s0: Tree) returns (more: bool)
      requires 0 <= t < TAGS && Marked(s0, Now(), v, t, false) && 0 <= d < |path| - 1 && |path| == height && PathOk(Now(), path, v)
      requires forall k :: d < k < height - 1 ==> TightOn(Now(), path, v, t, k)
      modifies this`nodes
      ensures Marked(s0, Now(), v, t, false) && height == old(height) && PathOk(Now(), path, v)
      ensures forall k :: (if more then d else 0) <= k < height - 1 ==> TightOn(Now(), path, v, t, k)
    {
      ghost var s := Now();
      assert OnPath(s, path, v, d);
      more := Unmark(path[d], height - d, v, t);
      MarkedTrans(s0, s, Now(), v, t, false);
      SamePath(s, Now(), path, v);
      assert OnPath(Now(), path, v, d);
      forall k | d < k < height - 1 ensures TightOn(Now(), path, v, t, k) { TightKept(s, Now(), path, v, t, d, k); }
      if !more {
        forall k | 0 <= k <= d ensures TightOn(Now(), path, v, t, k) { TightAbove(Now(), path, v, t, d, k); }
      }
    }

    /** The tag of an index. The answer is wrong only for an absent index that was tagged, and then it is yes. */
    method TagGet(v: int, t: int) returns (b: bool)
      requires Sound(Now()) && v >= 0 && 0 <= t < TAGS
      ensures Matches(Now(), t, v) ==> b
      ensures Clean(Now()) ==> b == Matches(Now(), t, v)
    {
      ghost var s := Now();
      Fits(v, height);
      if root == Null || v > MaxIndex(height) || height == 0 { return false; }
      AtRoot(s, v);
      var node, h := root.id, height;
      while h > 0
        invariant 1 <= h <= height && Here(s, node, h, v) && Walk(s, node, h, v) == View(s, v)
        decreases h
      {
        var i := Digit(v, h);
        assert NodeOk(s, node) && SlotOk(s, node, i);
        assert Clean(s) ==> CleanAt(s, node);
        if !nodes[node].tags[t][i] {
          BitClear(s, node, h, v, t);
          return false;
        }
        if h == 1 { return true; }
        if nodes[node].slots[i] == Null { return false; }
        StepDown(s, node, h, v);
        node := nodes[node].slots[i].id;
        h := h - 1;
      }
      return false;
    }

    /** The items asked for below one node, in index order, until there are enough. */
    method GangNode(f: int, base: int, first: int, max: int, t: int, level: int)
      returns (items: seq<int>, ghost ids: seq<int>, ghost end: int)
      requires Sound(Now()) && f in nodes && f in home && home[f].level == level && 1 <= level <= height && t < TAGS && max > 0
      requires base == home[f].prefix * Span(level) && base >= 0
      ensures Found(Now(), t, first, base, end, ids, items) && |ids| <= max
      ensures base <= end <= base + Span(level) && (|ids| < max ==> end == base + Span(level))
      decreases level, 1
    {
      ghost var s := Now();
      items, ids, end := [], [], base;
      SlotStarts(base, level, 0);
      for i := 0 to WIDTH
        invariant end == SlotStart(base, level, i) && |ids| < max && Found(s, t, first, base, end, ids, items)
      {
        ghost var ids0, end0 := ids, end;
        var more;
        ghost var moreIds;
        SlotStarts(base, level, i);
        more, moreIds, end := GangSlot(f, i, base, first, max - |items|, t, level);
        FoundMore(s, t, first, base, end0, end, ids0, items, moreIds, more);
        items, ids := items + more, ids0 + moreIds;
        if |items| >= max { return; }
      }
    }

    method GangSlot(f: int, i: int, base: int, first: int, max: int, t: int, level: int)
      returns (items: seq<int>, ghost ids: seq<int>, ghost end: int)
      requires Sound(Now()) && f in nodes && f in home && home[f].level == level && 1 <= level <= height && t < TAGS && max > 0
      requires base == home[f].prefix * Span(level) && base >= 0 && 0 <= i < WIDTH
      ensures Found(Now(), t, first, SlotStart(base, level, i), end, ids, items) && |ids| <= max
      ensures SlotStart(base, level, i) <= end <= SlotStart(base, level, i + 1) && (|ids| < max ==> end == SlotStart(base, level, i + 1))
      decreases level, 0
    {
      ghost var s := Now();
      assert NodeOk(s, f) && SlotOk(s, f, i);
      SlotStarts(base, level, i);
      var lo := SlotStart(base, level, i);
      var hi, n := lo + Span(level - 1), nodes[f];
      items, ids, end := [], [], hi;
      if (t >= 0 && !n.tags[t][i]) || n.slots[i] == Null || hi <= first {
        SlotSkipped(s, t, first, f, level, i, lo, hi);
      } else if level == 1 {
        SlotRange(s, f, 1, i, lo);
        items, ids := [n.slots[i].x], [lo];
        assert Hit(s, t, first, lo, hi, lo) && ItemAt(s, ids[0], items[0]);
      } else {
        ChildBase(home[f].prefix, level, i);
        items, ids, end := GangNode(n.slots[i].id, lo, first, max, t, level - 1);
      }
    }

    /** The first max items at or above an index, all of them or those with a tag. The list stops at some index only
        because it is full. */
    method GangLookup(first: int, max: int, t: int) returns (items: seq<int>, ghost ids: seq<int>, ghost end: int)
      requires Sound(Now()) && 0 <= first && 0 <= max && t < TAGS
      ensures Found(Now(), t, first, 0, end, ids, items) && |items| <= max
      ensures |items| < max ==> forall w :: end <= w ==> !Matches(Now(), t, w)
    {
      ghost var s := Now();
      if root == Null || max == 0 { return [], [], 0; }
      if height == 0 {
        if t < 0 && first == 0 {
          assert Hit(s, t, first, 0, 1, 0);
          return [root.x], [0], 1;
        }
        return [], [], 1;
      }
      items, ids, end := GangNode(root.id, 0, first, max, t, height);
      forall w | end <= w ensures |items| < max ==> !Matches(s, t, w) { Interval(0, height, w); }
    }

    /** Any call, with items tagged only once they are there and index 0 first into an empty tree, does to the tree
        what it does to the map. An insert is refused for a duplicate, for an index beyond the tallest tree or for
        want of memory. */
    method Serve(c: Call, ghost m: map<int, Cell>) returns (done: bool)
      requires Proper(c) && Represents(Now(), m)
      requires c.TagSetCall? ==> c.v in m
      requires c.InsertCall? ==> root != Null || c.v == 0 || c.v > MaxIndex(MAX_HEIGHT)
      modifies this
      ensures Represents(Now(), FlatStep(m, c, done)) && Blocks(Now()) == Blocks(old(Now()))
      ensures c.InsertCall? && !done ==> c.v in m || c.v > MaxIndex(MAX_HEIGHT) || free == []
      ensures c.InsertCall? && done ==> c.v !in m
      ensures c.TagSetCall? ==> done == (old(height) >= 1)
      ensures c.DeleteCall? || c.TagClearCall? ==> done
    {
      ghost var s := Now();
      assert CellIs(s, m, c.v);
      match c {
        case InsertCall(v, x) =>
          var r := Insert(v, x);
          done := r == Stored;
          if !done { assert SameAt(s, Now(), v); }
        case DeleteCall(v) =>
          var _ := Delete(v);
          done := true;
        case TagSetCall(v, t) =>
          TagSet(v, t);
          done := height >= 1;
        case TagClearCall(v, t) =>
          ghost var _ := TagClear(v, t);
          done := true;
      }
      RepresentsAfter(s, Now(), m, FlatStep(m, c, done), c.v);
    }

    /** A call that the tree answers with a crash, or one that would tag what is not there, is not made. */
    method Offer(c: Call, ghost m: map<int, Cell>) returns (done: bool)
      requires Proper(c) && Represents(Now(), m)
      modifies this
      ensures Represents(Now(), FlatStep(m, c, done)) && Reasons(m, c, done, old(height), free) && Blocks(Now()) == Blocks(old(Now()))
    {
      assert CellIs(Now(), m, c.v);
      if c.TagSetCall? {
        var e := Lookup(c.v);
        if e == Null { return false; }
      }
      if c.InsertCall? && root == Null && 0 < c.v <= MaxIndex(MAX_HEIGHT) {
        EmptyMap(Now(), m);
        return false;
      }
      done := Serve(c, m);
    }
  }

  /** Why a call is not done: an insert of an index that is there, that is beyond the tallest tree, for which there is no
      node, or that is the first one and not 0; a tag on what is not there, or in a tree of height 0. */
  ghost predicate Reasons(m: map<int, Cell>, c: Call, done: bool, height: int, free: seq<int>) {
    match c
    case InsertCall(v, _) =>
      if done then v !in m else v in m || v > MaxIndex(MAX_HEIGHT) || free == [] || (m == map[] && v > 0)
    case TagSetCall(v, _) => done <==> v in m && height >= 1
    case _ => done
  }

  lemma EmptyMap(s: Tree, m: map<int, Cell>)
    requires Represents(s, m) && s.root == Null
    ensures m == map[]
  {
    forall w ensures w !in m { assert CellIs(s, m, w); }
  }

  function FlatRun(m: map<int, Cell>, calls: seq<Call>, dones: seq<bool>): map<int, Cell>
    requires |dones| == |calls| && forall i :: 0 <= i < |calls| ==> Proper(calls[i])
    decreases |calls|
  {
    if calls == [] then m
    else var n := |calls| - 1; FlatStep(FlatRun(m, calls[..n], dones[..n]), calls[n], dones[n])
  }

  /** Call i of a run, between two states of the tree, is done or not for a reason. */
  ghost predicate Answered(calls: seq<Call>, dones: seq<bool>, trees: seq<Tree>, i: int)
    requires 0 <= i < |calls| && i < |dones| && |trees| > i + 1 && forall i :: 0 <= i < |calls| ==> Proper(calls[i])
  {
    Reasons(FlatRun(map[], calls[..i], dones[..i]), calls[i], dones[i], trees[i].height, trees[i + 1].free)
  }

  /** A run so far: the tree is the map that the calls made, and every call had its answer. */
  ghost predicate Lived(calls: seq<Call>, dones: seq<bool>, trees: seq<Tree>) {
    && |dones| <= |calls| && |trees| == |dones| + 1 && (forall i :: 0 <= i < |calls| ==> Proper(calls[i]))
    && Represents(trees[|dones|], FlatRun(map[], calls[..|dones|], dones))
    && forall j {:trigger Answered(calls, dones, trees, j)} :: 0 <= j < |dones| ==> Answered(calls, dones, trees, j)
  }

  lemma AnsweredStill(calls: seq<Call>, dones: seq<bool>, trees: seq<Tree>, i: int, done: bool, tree: Tree)
    requires 0 <= i < |calls| && i < |dones| && |trees| > i + 1 && forall i :: 0 <= i < |calls| ==> Proper(calls[i])
    requires Answered(calls, dones, trees, i)
    ensures Answered(calls, dones + [done], trees + [tree], i)
  {
    assert (dones + [done])[..i] == dones[..i];
  }

  lemma LivedMore(calls: seq<Call>, dones: seq<bool>, trees: seq<Tree>, done: bool, tree: Tree)
    requires Lived(calls, dones, trees) && |dones| < |calls|
    requires var i, m := |dones|, FlatRun(map[], calls[..|dones|], dones);
      Represents(tree, FlatStep(m, calls[i], done)) && Reasons(m, calls[i], done, trees[i].height, tree.free)
    ensures Lived(calls, dones + [done], trees + [tree])
  {
    var i, dones', trees' := |dones|, dones + [done], trees + [tree];
    assert calls[..i + 1][..i] == calls[..i] && dones'[..i] == dones;
    forall j | 0 <= j < |dones'| ensures Answered(calls, dones', trees', j) {
      if j < i { AnsweredStill(calls, dones, trees, j, done, tree); }
    }
  }

  /** A whole life of a tree: after any run of calls it is the map that the calls make of the empty one, and every call
      that is not done has a reason. */
  method Run(blocks: seq<int>, calls: seq<Call>) returns (tree: Radix, dones: seq<bool>, ghost trees: seq<Tree>)
    requires NoDup(blocks) && forall i :: 0 <= i < |calls| ==> Proper(calls[i])
    ensures fresh(tree) && |dones| == |calls| && Represents(tree.Now(), FlatRun(map[], calls, dones))
    ensures Blocks(tree.Now()) == set b | b in blocks
    ensures |trees| == |calls| + 1 && trees[|calls|] == tree.Now() && forall i :: 0 <= i < |calls| ==> Answered(calls, dones, trees, i)
  {
    tree := new Radix(blocks);
    dones, trees := [], [tree.Now()];
    assert forall w :: CellIs(tree.Now(), map[], w);
    for i := 0 to |calls|
      invariant fresh(tree) && |dones| == i && |trees| == i + 1 && trees[i] == tree.Now() && Lived(calls, dones, trees)
      invariant Blocks(tree.Now()) == set b | b in blocks
    {
      var done := tree.Offer(calls[i], FlatRun(map[], calls[..i], dones));
      LivedMore(calls, dones, trees, done, tree.Now());
      dones, trees := dones + [done], trees + [tree.Now()];
    }
    assert calls[..|calls|] == calls;
  }
}
