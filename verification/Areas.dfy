/**
 The areas of an address space (mem/vma.c) and the mapping and unmapping of ranges (mem/vmm.c). The areas are kept
 twice: as a list in address order and as a search tree over the same areas.
 */
module Areas {
  import opened Basics

  const PAGE := 4096
  const LOWEST_HINT := 0x10000

  datatype Kind = Anon | FileBacked | Device | Shm

  datatype Area = Area(start: int, end: int, kind: Kind, flags: int, file: int, offset: int)

  datatype Tree = Leaf | Node(left: Tree, area: Area, right: Tree)

  /** What an address means: the file offset counts for file areas only. */
  datatype Meaning = Meaning(kind: Kind, flags: int, file: int, offset: int)

  function Inorder(t: Tree): seq<Area> {
    match t
    case Leaf => []
    case Node(l, a, r) => Inorder(l) + [a] + Inorder(r)
  }

  predicate Proper(a: Area) { a.start < a.end && a.start % PAGE == 0 && a.end % PAGE == 0 }

  predicate Before(a: Area, b: Area) { a.end <= b.start }

  /** Areas in address order, no two overlapping. */
  ghost predicate Sorted(l: seq<Area>) {
    && (forall i {:trigger Proper(l[i])} :: 0 <= i < |l| ==> Proper(l[i]))
    && (forall i, j {:trigger Before(l[i], l[j])} :: 0 <= i < j < |l| ==> Before(l[i], l[j]))
  }

  predicate Clear(a: Area, lo: int, hi: int) { hi <= a.start || a.end <= lo }

  /** No area touches a range. */
  ghost predicate Free(l: seq<Area>, lo: int, hi: int) {
    forall i {:trigger Clear(l[i], lo, hi)} :: 0 <= i < |l| ==> Clear(l[i], lo, hi)
  }

  predicate Holds(a: Area, x: int) { a.start <= x < a.end }

  function MeaningOf(a: Area, x: int): Meaning {
    Meaning(a.kind, a.flags, a.file, if a.kind == FileBacked then a.offset + (x - a.start) else 0)
  }

  function Look(l: seq<Area>, x: int): Option<Meaning> {
    if l == [] then None else if Holds(l[0], x) then Some(MeaningOf(l[0], x)) else Look(l[1..], x)
  }

  function RoundUp(n: int): int { (n + (PAGE - 1)) / PAGE * PAGE }

  /** Addresses and lengths have 64 bits, and their sums wrap around. */
  const WORD := 0x1_0000_0000_0000_0000

  function Sum(a: int, b: int): int { (a + b) % WORD }

  function Rounded(n: int): int { RoundUp(n) % WORD }

  lemma {:induction false} LookConcat(a: seq<Area>, b: seq<Area>, x: int)
    ensures Look(a + b, x) == if Look(a, x).Some? then Look(a, x) else Look(b, x)
    decreases |a|
  {
    if a == [] {
      assert a + b == b;
    } else {
      LookConcat(a[1..], b, x);
      assert (a + b)[1..] == a[1..] + b;
    }
  }

  lemma {:induction false} LookNone(l: seq<Area>, x: int)
    ensures Look(l, x) == None <==> forall i :: 0 <= i < |l| ==> !Holds(l[i], x)
    decreases |l|
  {
    if l != [] {
      LookNone(l[1..], x);
      if forall i :: 0 <= i < |l| ==> !Holds(l[i], x) {
        forall i | 0 <= i < |l[1..]| ensures !Holds(l[1..][i], x) { assert !Holds(l[i + 1], x); }
      }
      if Look(l, x) == None {
        forall i | 0 <= i < |l| ensures !Holds(l[i], x) { if i > 0 { assert !Holds(l[1..][i - 1], x); } }
      }
    }
  }

  // ---- What unmapping a range leaves ---------------------------------------------------------

  function LeftOf(a: Area, lo: int): Area { a.(end := lo) }

  /** The part above the range, as the code makes it when it has to split. */
  function SplitRight(a: Area, hi: int): Area {
    Area(hi, a.end, a.kind, a.flags, a.file, if a.kind == FileBacked then a.offset + (hi - a.start) else 0)
  }

  /** The same part when the area is only trimmed: other kinds keep their offset field. */
  function TrimRight(a: Area, hi: int): Area {
    a.(start := hi, offset := if a.kind == FileBacked then a.offset + (hi - a.start) else a.offset)
  }

  /** A range in the middle of an area, for which a second area is needed. */
  predicate Inside(a: Area, lo: int, hi: int) { a.start < lo && hi < a.end }

  /** What is left of an area. Behind an end that wrapped around, the part above overlaps the one below and is refused. */
  function CutOne(a: Area, lo: int, hi: int, memory: bool): seq<Area> {
    if Clear(a, lo, hi) then [a]
    else if lo <= a.start && a.end <= hi then []
    else if Inside(a, lo, hi) then
      (if !memory then [a] else if lo <= hi then [LeftOf(a, lo), SplitRight(a, hi)] else [LeftOf(a, lo)])
    else if a.start < lo then [LeftOf(a, lo)]
    else [TrimRight(a, hi)]
  }

  /** The four cases field by field: the parts keep everything, and a file offset moves along with the start of a part. */
  lemma CutOneIs(a: Area, lo: int, hi: int, memory: bool)
    requires lo < hi && a.start < a.end
    ensures hi <= a.start || a.end <= lo ==> CutOne(a, lo, hi, memory) == [a]
    ensures lo <= a.start && a.end <= hi ==> CutOne(a, lo, hi, memory) == []
    ensures a.start < lo < a.end <= hi ==> CutOne(a, lo, hi, memory) == [Area(a.start, lo, a.kind, a.flags, a.file, a.offset)]
    ensures lo <= a.start < hi < a.end ==>
              CutOne(a, lo, hi, memory) == [Area(hi, a.end, a.kind, a.flags, a.file, a.offset + if a.kind == FileBacked then hi - a.start else 0)]
    ensures a.start < lo && hi < a.end && !memory ==> CutOne(a, lo, hi, memory) == [a]
    ensures a.start < lo && hi < a.end && memory ==>
              CutOne(a, lo, hi, memory) == [Area(a.start, lo, a.kind, a.flags, a.file, a.offset),
                                            Area(hi, a.end, a.kind, a.flags, a.file, if a.kind == FileBacked then a.offset + (hi - a.start) else 0)]
  {
  }

  function Cut(l: seq<Area>, lo: int, hi: int, memory: bool): seq<Area> {
    if l == [] then [] else Cut(l[..|l| - 1], lo, hi, memory) + CutOne(l[|l| - 1], lo, hi, memory)
  }

  lemma CutMore(l: seq<Area>, j: int, lo: int, hi: int, memory: bool)
    requires 0 <= j < |l|
    ensures Cut(l[..j + 1], lo, hi, memory) == Cut(l[..j], lo, hi, memory) + CutOne(l[j], lo, hi, memory)
  {
    assert l[..j + 1][..j] == l[..j];
  }

  /** Half-way through an unmap: j areas done, i of the list behind. */
  ghost predicate Midway(l: seq<Area>, j: int, now: seq<Area>, i: int, lo: int, hi: int, memory: bool) {
    0 <= j <= |l| && i == |Cut(l[..j], lo, hi, memory)| && now == Cut(l[..j], lo, hi, memory) + l[j..]
  }

  lemma MidStart(l: seq<Area>, lo: int, hi: int, memory: bool)
    ensures Midway(l, 0, l, 0, lo, hi, memory)
  {
    assert l[..0] == [] && l[0..] == l;
  }

  lemma MidStep(l: seq<Area>, j: int, now: seq<Area>, i: int, lo: int, hi: int, memory: bool)
    requires Midway(l, j, now, i, lo, hi, memory) && i < |now|
    ensures j < |l| && now[i] == l[j] && now == Cut(l[..j], lo, hi, memory) + [now[i]] + l[j + 1..]
    ensures var c := Cut(l[..j], lo, hi, memory);
      Midway(l, j + 1, c + CutOne(l[j], lo, hi, memory) + l[j + 1..], |c| + |CutOne(l[j], lo, hi, memory)|, lo, hi, memory)
  {
    CutMore(l, j, lo, hi, memory);
    Peel(Cut(l[..j], lo, hi, memory), l[j..]);
    assert l[j..][1..] == l[j + 1..];
  }

  lemma MidEnd(l: seq<Area>, j: int, now: seq<Area>, i: int, lo: int, hi: int, memory: bool)
    requires Midway(l, j, now, i, lo, hi, memory) && i >= |now|
    ensures now == Cut(l, lo, hi, memory)
  {
    assert j == |l| && l[..j] == l && l[j..] == [];
  }

  lemma CutOneLook(a: Area, lo: int, hi: int, memory: bool, x: int)
    requires Proper(a) && lo < hi && (memory || !Inside(a, lo, hi))
    ensures Look(CutOne(a, lo, hi, memory), x) == if lo <= x < hi || !Holds(a, x) then None else Some(MeaningOf(a, x))
  {
    var c := CutOne(a, lo, hi, memory);
    assert |c| >= 1 ==> Look(c, x) == if Holds(c[0], x) then Some(MeaningOf(c[0], x)) else Look(c[1..], x);
    assert |c| == 1 ==> c[1..] == [];
    assert |c| == 2 ==> c[1..] == [c[1]] && c[1..][1..] == [];
    assert |c| == 2 ==> Look(c[1..], x) == if Holds(c[1], x) then Some(MeaningOf(c[1], x)) else None;
  }

  lemma LookLast(l: seq<Area>, x: int)
    requires l != []
    ensures var n := |l| - 1;
            Look(l, x) == if Look(l[..n], x) != None then Look(l[..n], x) else if Holds(l[n], x) then Some(MeaningOf(l[n], x)) else None
  {
    var n := |l| - 1;
    LookConcat(l[..n], [l[n]], x);
    assert l == l[..n] + [l[n]];
    assert Look([l[n]], x) == if Holds(l[n], x) then Some(MeaningOf(l[n], x)) else None;
  }

  ghost predicate CanCut(l: seq<Area>, lo: int, hi: int, memory: bool) {
    && lo < hi && (forall i {:trigger Proper(l[i])} :: 0 <= i < |l| ==> Proper(l[i]))
    && (memory || forall i {:trigger Inside(l[i], lo, hi)} :: 0 <= i < |l| ==> !Inside(l[i], lo, hi))
  }

  lemma CanCutInit(l: seq<Area>, lo: int, hi: int, memory: bool)
    requires CanCut(l, lo, hi, memory) && l != []
    ensures CanCut(l[..|l| - 1], lo, hi, memory) && Proper(l[|l| - 1]) && (memory || !Inside(l[|l| - 1], lo, hi))
  {
    var m := l[..|l| - 1];
    forall i | 0 <= i < |m| ensures Proper(m[i]) { assert Proper(l[i]); }
    if !memory { forall i | 0 <= i < |m| ensures !Inside(m[i], lo, hi) { assert !Inside(l[i], lo, hi); } }
  }

  /** Unmapping a range clears its addresses and leaves the meaning of all others. */
  lemma {:induction false} CutLook(l: seq<Area>, lo: int, hi: int, memory: bool, x: int)
    requires CanCut(l, lo, hi, memory)
    ensures Look(Cut(l, lo, hi, memory), x) == if lo <= x < hi then None else Look(l, x)
    decreases |l|
  {
    if l != [] {
      var n := |l| - 1;
      CanCutInit(l, lo, hi, memory);
      CutLook(l[..n], lo, hi, memory, x);
      CutOneLook(l[n], lo, hi, memory, x);
      LookConcat(Cut(l[..n], lo, hi, memory), CutOne(l[n], lo, hi, memory), x);
      LookLast(l, x);
    }
  }

  /** Without memory for a second area the range stays mapped exactly when some area holds it in its middle. */
  lemma NoMemoryForSplit(l: seq<Area>, lo: int, hi: int)
    requires lo < hi && Sorted(l)
    ensures (forall x :: lo <= x < hi ==> Unmapped(Cut(l, lo, hi, false), x)) <==> (forall i :: 0 <= i < |l| ==> !Inside(l[i], lo, hi))
  {
    if forall i :: 0 <= i < |l| ==> !Inside(l[i], lo, hi) {
      forall x | lo <= x < hi ensures Unmapped(Cut(l, lo, hi, false), x) { CutLook(l, lo, hi, false, x); }
    } else {
      var i :| 0 <= i < |l| && Inside(l[i], lo, hi);
      CutHas(l, lo, hi, i);
      var c := Cut(l, lo, hi, false);
      var k :| 0 <= k < |c| && c[k] == l[i];
      LookNone(c, lo);
      assert Holds(c[k], lo) && !Unmapped(c, lo);
    }
  }

  ghost predicate Unmapped(l: seq<Area>, x: int) { Look(l, x) == None }

  lemma {:induction false} CutHas(l: seq<Area>, lo: int, hi: int, i: int)
    requires 0 <= i < |l| && Inside(l[i], lo, hi) && lo < hi
    ensures l[i] in Cut(l, lo, hi, false)
    decreases |l|
  {
    var n := |l| - 1;
    if i < n { CutHas(l[..n], lo, hi, i); }
  }

  // ---- An end that wrapped around ------------------------------------------------------------

  lemma {:induction false} CutContains(l: seq<Area>, lo: int, hi: int, memory: bool, i: int, k: int)
    requires 0 <= i < |l| && 0 <= k < |CutOne(l[i], lo, hi, memory)|
    ensures CutOne(l[i], lo, hi, memory)[k] in Cut(l, lo, hi, memory)
    decreases |l|
  {
    var n := |l| - 1;
    if i < n {
      CutContains(l[..n], lo, hi, memory, i, k);
    } else {
      var c, d := Cut(l[..n], lo, hi, memory), CutOne(l[n], lo, hi, memory);
      assert (c + d)[|c| + k] == d[k];
    }
  }

  ghost predicate NoneAbove(l: seq<Area>, lo: int) { forall i {:trigger l[i]} :: 0 <= i < |l| ==> l[i].end <= lo }

  lemma {:induction false} CutBelow(l: seq<Area>, lo: int, hi: int, memory: bool)
    requires forall i {:trigger l[i]} :: 0 <= i < |l| ==> NoneAbove(CutOne(l[i], lo, hi, memory), lo)
    ensures NoneAbove(Cut(l, lo, hi, memory), lo)
    decreases |l|
  {
    if l != [] {
      var n := |l| - 1;
      assert forall i {:trigger l[..n][i]} :: 0 <= i < n ==> l[..n][i] == l[i];
      CutBelow(l[..n], lo, hi, memory);
      var c, d := Cut(l[..n], lo, hi, memory), CutOne(l[n], lo, hi, memory);
      var e: seq<Area> := c + d;
      forall i | 0 <= i < |e| ensures e[i].end <= lo { if i < |c| { assert c[i].end <= lo; } else { assert d[i - |c|].end <= lo; } }
    }
  }

  /** The area does not reach above the start of the range, or it is cut off there. */
  predicate CutOff(a: Area, lo: int, hi: int, memory: bool) { a.end <= lo || (memory && a.start < hi < lo) }

  /** When the end has wrapped around, everything from the start of the range on ends up unmapped if and only if each
      area that reaches above it begins below the wrapped end and there is memory for a second one. */
  lemma WrappedUnmap(l: seq<Area>, lo: int, hi: int, memory: bool)
    requires Sorted(l) && hi <= lo
    ensures (forall x :: lo <= x ==> Unmapped(Cut(l, lo, hi, memory), x)) <==> (forall i :: 0 <= i < |l| ==> CutOff(l[i], lo, hi, memory))
  {
    var c := Cut(l, lo, hi, memory);
    if forall i :: 0 <= i < |l| ==> CutOff(l[i], lo, hi, memory) {
      forall i {:trigger l[i]} | 0 <= i < |l| ensures NoneAbove(CutOne(l[i], lo, hi, memory), lo) { assert CutOff(l[i], lo, hi, memory); }
      CutBelow(l, lo, hi, memory);
      forall x | lo <= x ensures Unmapped(c, x) {
        forall i | 0 <= i < |c| ensures !Holds(c[i], x) { assert c[i].end <= lo; }
        LookNone(c, x);
      }
    } else {
      var i :| 0 <= i < |l| && !CutOff(l[i], lo, hi, memory);
      assert Proper(l[i]);
      var d, x := CutOne(l[i], lo, hi, memory), if l[i].start < lo then lo else l[i].start;
      var k := |d| - 1;
      assert Holds(d[k], x);
      CutContains(l, lo, hi, memory, i, k);
      var j :| 0 <= j < |c| && c[j] == d[k];
      LookNone(c, x);
      assert Holds(c[j], x) && !Unmapped(c, x);
    }
  }

  lemma CutOneSorted(a: Area, lo: int, hi: int, memory: bool)
    requires Proper(a) && lo < hi && lo % PAGE == 0 && hi % PAGE == 0
    ensures var d := CutOne(a, lo, hi, memory);
      Sorted(d) && forall i {:trigger Proper(d[i])} :: 0 <= i < |d| ==> a.start <= d[i].start && d[i].end <= a.end
  {
  }

  ghost predicate EndsBy(l: seq<Area>, x: int) { forall i {:trigger Proper(l[i])} :: 0 <= i < |l| ==> l[i].end <= x }

  /** Unmapping keeps the areas apart and in order. */
  lemma {:induction false} CutSorted(l: seq<Area>, lo: int, hi: int, memory: bool)
    requires Sorted(l) && lo < hi && lo % PAGE == 0 && hi % PAGE == 0
    ensures Sorted(Cut(l, lo, hi, memory))
    ensures EndsBy(Cut(l, lo, hi, memory), if l == [] then 0 else l[|l| - 1].end)
    decreases |l|
  {
    if l != [] {
      var n := |l| - 1;
      forall i | 0 <= i < n ensures Proper(l[..n][i]) { assert Proper(l[i]); }
      forall i, j | 0 <= i < j < n ensures Before(l[..n][i], l[..n][j]) { assert Before(l[i], l[j]); }
      CutSorted(l[..n], lo, hi, memory);
      assert Proper(l[n]);
      CutOneSorted(l[n], lo, hi, memory);
      var c, d := Cut(l[..n], lo, hi, memory), CutOne(l[n], lo, hi, memory);
      var e := c + d;
      if n > 0 {
        assert Before(l[n - 1], l[n]) && l[..n][n - 1] == l[n - 1];
      } else {
        assert c == [];
      }
      forall i | 0 <= i < |e| ensures Proper(e[i]) && e[i].end <= l[n].end {
        if i < |c| { assert Proper(c[i]); } else { assert Proper(d[i - |c|]); }
      }
      forall i, j | 0 <= i < j < |e| ensures Before(e[i], e[j]) {
        if j < |c| {
          assert Before(c[i], c[j]);
        } else if i < |c| {
          assert Proper(c[i]) && Proper(d[j - |c|]);
        } else {
          assert Before(d[i - |c|], d[j - |c|]);
        }
      }
    }
  }

  // ---- The search tree -----------------------------------------------------------------------

  /** The tree with an area added where its address belongs. */
  function Graft(t: Tree, a: Area): Tree {
    match t
    case Leaf => Node(Leaf, a, Leaf)
    case Node(l, b, r) => if a.end <= b.start then Node(Graft(l, a), b, r) else Node(l, b, Graft(r, a))
  }

  function Join(l: Tree, r: Tree): (t: Tree)
    ensures Inorder(t) == Inorder(l) + Inorder(r)
  {
    match l
    case Leaf => r
    case Node(ll, a, lr) =>
      var j := Join(lr, r);
      assert Inorder(ll) + [a] + (Inorder(lr) + Inorder(r)) == Inorder(ll) + [a] + Inorder(lr) + Inorder(r);
      Node(ll, a, j)
  }

  function Erase(t: Tree, start: int): Tree {
    match t
    case Leaf => Leaf
    case Node(l, b, r) =>
      if start == b.start then Join(l, r)
      else if start < b.start then Node(Erase(l, start), b, r) else Node(l, b, Erase(r, start))
  }

  ghost predicate SortedTree(t: Tree) { Sorted(Inorder(t)) }

  lemma SortedParts(t: Tree)
    requires t.Node? && SortedTree(t)
    ensures SortedTree(t.left) && SortedTree(t.right) && Proper(t.area)
    ensures AllBefore(Inorder(t.left), t.area) && AllAfter(t.area, Inorder(t.right))
  {
    var a, b, l := Inorder(t.left), Inorder(t.right), Inorder(t);
    assert forall i :: 0 <= i < |a| ==> l[i] == a[i];
    assert l[|a|] == t.area;
    assert forall i :: 0 <= i < |b| ==> l[|a| + 1 + i] == b[i];
    forall i, j | 0 <= i < j < |a| ensures Before(a[i], a[j]) { assert Before(l[i], l[j]); }
    forall i, j | 0 <= i < j < |b| ensures Before(b[i], b[j]) { assert Before(l[|a| + 1 + i], l[|a| + 1 + j]); }
    forall i | 0 <= i < |a| ensures Before(a[i], t.area) { assert Before(l[i], l[|a|]); }
    forall i | 0 <= i < |b| ensures Before(t.area, b[i]) { assert Before(l[|a|], l[|a| + 1 + i]); }
  }

  /** Position k is where an area belongs. */
  ghost predicate Place(l: seq<Area>, k: int, a: Area) {
    && 0 <= k <= |l| && (forall i {:trigger Before(l[i], a)} :: 0 <= i < k ==> Before(l[i], a))
    && (forall i {:trigger Before(a, l[i])} :: k <= i < |l| ==> Before(a, l[i]))
  }

  /** Two ways to divide a sequence, the first cut being the lower one. */
  lemma Divide<T>(p: seq<T>, q: seq<T>, l: seq<T>, r: seq<T>)
    requires p + q == l + r && |p| <= |l|
    ensures l == p + l[|p|..] && q == l[|p|..] + r
  {
    var m := p + q;
    assert forall i :: 0 <= i < |p| ==> m[i] == p[i];
    assert forall i :: 0 <= i < |l| ==> m[i] == l[i];
    assert m[..|p|] == p && m[|p|..] == q && m[..|l|] == l && m[|l|..] == r;
    assert m[|p|..] == m[|p|..|l|] + m[|l|..];
  }

  ghost predicate AllBefore(p: seq<Area>, a: Area) {
    forall i {:trigger Before(p[i], a)} :: 0 <= i < |p| ==> Before(p[i], a)
  }

  ghost predicate AllAfter(a: Area, q: seq<Area>) {
    forall i {:trigger Before(a, q[i])} :: 0 <= i < |q| ==> Before(a, q[i])
  }

  lemma SomeBefore(p: seq<Area>, q: seq<Area>, a: Area)
    requires AllBefore(p + q, a)
    ensures AllBefore(p, a) && AllBefore(q, a)
  {
    var l := p + q;
    forall i | 0 <= i < |p| ensures Before(p[i], a) { assert Before(l[i], a); }
    forall i | 0 <= i < |q| ensures Before(q[i], a) { assert Before(l[|p| + i], a); }
  }

  lemma SomeAfter(a: Area, p: seq<Area>, q: seq<Area>)
    requires AllAfter(a, p + q)
    ensures AllAfter(a, p) && AllAfter(a, q)
  {
    var l := p + q;
    forall i | 0 <= i < |p| ensures Before(a, p[i]) { assert Before(a, l[i]); }
    forall i | 0 <= i < |q| ensures Before(a, q[i]) { assert Before(a, l[|p| + i]); }
  }

  /** The area is in, at position k, and everything else is as before. */
  ghost predicate Added(l: seq<Area>, l': seq<Area>, k: int, a: Area) {
    Proper(a) && Place(l, k, a) && l' == l[..k] + [a] + l[k..]
  }

  lemma Assoc4<T>(p: seq<T>, a: seq<T>, l: seq<T>, r: seq<T>)
    ensures (p + a + l) + r == p + a + (l + r)
  {
  }

  // What is before or behind a whole list is so for its parts and for the element between them.
  lemma AfterParts(a: Area, l: seq<Area>, b: Area, r: seq<Area>)
    requires AllAfter(a, l + ([b] + r))
    ensures AllAfter(a, l) && Before(a, b)
  {
    SomeAfter(a, l, [b] + r);
    assert ([b] + r)[0] == b && Before(a, ([b] + r)[0]);
  }

  lemma BeforeParts(l: seq<Area>, b: Area, r: seq<Area>, a: Area)
    requires AllBefore(l + [b] + r, a)
    ensures AllBefore(r, a) && Before(b, a)
  {
    SomeBefore(l + [b], r, a);
    assert (l + [b])[|l|] == b && Before((l + [b])[|l|], a);
  }

  lemma {:induction false} GraftInorder(t: Tree, p: seq<Area>, q: seq<Area>, a: Area)
    requires SortedTree(t) && Proper(a) && Inorder(t) == p + q && AllBefore(p, a) && AllAfter(a, q)
    ensures Inorder(Graft(t, a)) == p + [a] + q
    decreases t
  {
    if t.Node? {
      SortedParts(t);
      var l, b, r := Inorder(t.left), t.area, Inorder(t.right);
      Assoc(l, [b], r);
      if |p| <= |l| {
        var l' := l[|p|..];
        Divide(p, q, l, [b] + r);
        AfterParts(a, l', b, r);
        GraftInorder(t.left, p, l', a);
        GraftLeft(t, p, l', a);
      } else {
        var r' := p[|l| + 1..];
        Divide(l + [b], r, p, q);
        BeforeParts(l, b, r', a);
        GraftInorder(t.right, r', q, a);
        GraftRight(t, r', q, a);
      }
    }
  }

  lemma GraftLeft(t: Tree, p: seq<Area>, l: seq<Area>, a: Area)
    requires t.Node? && Proper(a) && Before(a, t.area) && Inorder(Graft(t.left, a)) == p + [a] + l
    ensures Inorder(Graft(t, a)) == p + [a] + (l + ([t.area] + Inorder(t.right)))
  {
    var m, b, r := p + [a] + l, [t.area], Inorder(t.right);
    assert Inorder(Graft(t, a)) == m + b + r;
    Assoc(m, b, r);
    Assoc4(p, [a], l, b + r);
  }

  lemma GraftRight(t: Tree, r: seq<Area>, q: seq<Area>, a: Area)
    requires t.Node? && Proper(a) && Proper(t.area) && Before(t.area, a) && Inorder(Graft(t.right, a)) == r + [a] + q
    ensures Inorder(Graft(t, a)) == (Inorder(t.left) + [t.area] + r) + [a] + q
  {
    var l := Inorder(t.left) + [t.area];
    assert Inorder(Graft(t, a)) == l + (r + [a] + q);
    Assoc(l, r + [a], q);
    Assoc(l, r, [a]);
  }

  lemma {:induction false} EraseInorder(t: Tree, p: seq<Area>, a: Area, q: seq<Area>)
    requires SortedTree(t) && Inorder(t) == p + [a] + q && Proper(a) && AllBefore(p, a) && AllAfter(a, q)
    ensures Inorder(Erase(t, a.start)) == p + q
    decreases t
  {
    SortedParts(t);
    var l, b, r := Inorder(t.left), t.area, Inorder(t.right);
    Assoc(l, [b], r);
    Assoc(p, [a], q);
    if |p| < |l| {
      var l' := l[|p| + 1..];
      Divide(p + [a], q, l, [b] + r);
      AfterParts(a, l', b, r);
      EraseInorder(t.left, p, a, l');
      EraseLeft(t, p, a, l');
    } else if |p| == |l| {
      Middle(p, a, q, l, b, r);
    } else {
      var r' := p[|l| + 1..];
      Divide(l + [b], r, p, [a] + q);
      BeforeParts(l, b, r', a);
      Assoc(r', [a], q);
      EraseInorder(t.right, r', a, q);
      EraseRight(t, r', a, q);
    }
  }

  lemma Middle<T>(p: seq<T>, a: T, q: seq<T>, l: seq<T>, b: T, r: seq<T>)
    requires p + [a] + q == l + [b] + r && |p| == |l|
    ensures p == l && a == b && q == r
  {
    var m := p + [a] + q;
    assert m[..|p|] == p && m[..|p|] == l;
    assert m[|p|] == a && m[|p|] == b;
    assert m[|p| + 1..] == q && m[|p| + 1..] == r;
  }

  lemma EraseLeft(t: Tree, p: seq<Area>, a: Area, l: seq<Area>)
    requires t.Node? && Proper(a) && Before(a, t.area) && Inorder(Erase(t.left, a.start)) == p + l
    ensures Inorder(Erase(t, a.start)) == p + (l + ([t.area] + Inorder(t.right)))
  {
    var b, r := [t.area], Inorder(t.right);
    assert Inorder(Erase(t, a.start)) == p + l + b + r;
    Assoc(p + l, b, r);
    Assoc(p, l, b + r);
  }

  lemma EraseRight(t: Tree, r: seq<Area>, a: Area, q: seq<Area>)
    requires t.Node? && Proper(t.area) && Before(t.area, a) && Inorder(Erase(t.right, a.start)) == r + q
    ensures Inorder(Erase(t, a.start)) == (Inorder(t.left) + [t.area] + r) + q
  {
    var l := Inorder(t.left) + [t.area];
    assert Inorder(Erase(t, a.start)) == l + (r + q);
    Assoc(l, r, q);
  }

  lemma PlaceSorted(l: seq<Area>, k: int, a: Area)
    requires Sorted(l) && Proper(a) && Place(l, k, a)
    ensures Sorted(l[..k] + [a] + l[k..])
  {
    var m := l[..k] + [a] + l[k..];
    forall i, j | 0 <= i < j < |m| ensures Before(m[i], m[j]) {
      if i != k && j != k { assert Before(l[if i < k then i else i - 1], l[if j < k then j else j - 1]); }
    }
  }

  lemma DropSorted(l: seq<Area>, k: int)
    requires Sorted(l) && 0 <= k < |l|
    ensures Sorted(l[..k] + l[k + 1..]) && Place(l[..k] + l[k + 1..], k, l[k])
  {
    var m := l[..k] + l[k + 1..];
    forall i, j | 0 <= i < j < |m| ensures Before(m[i], m[j]) {
      assert Before(l[if i < k then i else i + 1], l[if j < k then j else j + 1]);
    }
    forall i | 0 <= i < k ensures Before(m[i], l[k]) { assert Before(l[i], l[k]); }
    forall i | k <= i < |m| ensures Before(l[k], m[i]) { assert Before(l[k], l[i + 1]); }
  }

  /** There is only one place for an area. */
  lemma OnePlace(l: seq<Area>, k: int, j: int, a: Area)
    requires Proper(a) && Place(l, k, a) && Place(l, j, a) && forall i {:trigger Proper(l[i])} :: 0 <= i < |l| ==> Proper(l[i])
    ensures k == j
  {
    forall i | 0 <= i < |l| ensures (i < k) == Before(l[i], a) && (i < j) == Before(l[i], a) {
      assert Proper(l[i]) && (i < k ==> Before(l[i], a)) && (k <= i ==> Before(a, l[i]));
      assert (i < j ==> Before(l[i], a)) && (j <= i ==> Before(a, l[i]));
    }
    assert k < |l| ==> (k < k) == Before(l[k], a) == (k < j);
    assert j < |l| ==> (j < j) == Before(l[j], a) == (j < k);
  }

  lemma {:induction false} LookFound(l: seq<Area>, k: int, x: int)
    requires Sorted(l) && 0 <= k < |l| && Holds(l[k], x)
    ensures Look(l, x) == Some(MeaningOf(l[k], x))
    decreases |l|
  {
    if k > 0 {
      assert Before(l[0], l[k]);
      forall i, j | 0 <= i < j < |l[1..]| ensures Before(l[1..][i], l[1..][j]) { assert Before(l[i + 1], l[j + 1]); }
      LookFound(l[1..], k - 1, x);
    }
  }

  /** Of all areas only those of a subtree can still hold x. */
  ghost predicate OnlyBelow(l: seq<Area>, t: Tree, x: int) {
    && (forall a :: a in l && Holds(a, x) ==> a in Inorder(t)) && (forall a :: a in Inorder(t) ==> a in l)
  }

  lemma Narrow(l: seq<Area>, t: Tree, x: int)
    requires SortedTree(t) && t.Node? && OnlyBelow(l, t, x) && !Holds(t.area, x)
    ensures OnlyBelow(l, if x < t.area.start then t.left else t.right, x)
  {
    SortedParts(t);
    forall a | a in l && Holds(a, x) ensures a in Inorder(if x < t.area.start then t.left else t.right) {
      if a in Inorder(t.left) { assert Before(a, t.area); } else if a in Inorder(t.right) { assert Before(t.area, a); }
    }
  }

  /** The list with an area put in behind another one. */
  function After(l: seq<Area>, p: Area, a: Area): seq<Area> {
    if l == [] then [a] else if l[0] == p then [p, a] + l[1..] else [l[0]] + After(l[1..], p, a)
  }

  lemma {:induction false} AfterIs(l: seq<Area>, k: int, a: Area)
    requires 0 <= k < |l| && forall i :: 0 <= i < k ==> l[i] != l[k]
    ensures After(l, l[k], a) == l[..k + 1] + [a] + l[k + 1..]
    decreases |l|
  {
    if k == 0 {
      assert [l[0], a] + l[1..] == l[..1] + [a] + l[1..];
    } else {
      AfterIs(l[1..], k - 1, a);
      assert l[1..][..k] == l[1..k + 1] && l[1..][k..] == l[k + 1..];
      assert [l[0]] + l[1..k + 1] == l[..k + 1];
    }
  }

  function Without(l: seq<Area>, a: Area): seq<Area> {
    if l == [] then [] else if l[0] == a then l[1..] else [l[0]] + Without(l[1..], a)
  }

  lemma {:induction false} WithoutIs(l: seq<Area>, k: int)
    requires 0 <= k < |l| && forall i :: 0 <= i < k ==> l[i] != l[k]
    ensures Without(l, l[k]) == l[..k] + l[k + 1..]
    decreases |l|
  {
    if k > 0 {
      WithoutIs(l[1..], k - 1);
      assert l[1..][..k - 1] == l[1..k] && l[1..][k..] == l[k + 1..];
      assert [l[0]] + l[1..k] == l[..k];
    }
  }

  lemma Distinct(l: seq<Area>, k: int)
    requires Sorted(l) && 0 <= k < |l|
    ensures forall i :: 0 <= i < k ==> l[i] != l[k]
  {
    forall i | 0 <= i < k ensures l[i] != l[k] { assert Before(l[i], l[k]) && Proper(l[i]); }
  }

  lemma Surround(p: seq<Area>, a: Area, q: seq<Area>)
    requires Sorted(p + [a] + q)
    ensures Proper(a) && AllBefore(p, a) && AllAfter(a, q)
  {
    var l := p + [a] + q;
    assert l[|p|] == a;
    forall i | 0 <= i < |p| ensures Before(p[i], a) { assert Before(l[i], l[|p|]); }
    forall i | 0 <= i < |q| ensures Before(a, q[i]) { assert Before(l[|p|], l[|p| + 1 + i]); }
  }

  /** Half-way down to the place of an area. */
  ghost predicate Seeking(l: seq<Area>, p: seq<Area>, t: Tree, q: seq<Area>, a: Area, prev: Option<Area>) {
    && SortedTree(t) && l == p + Inorder(t) + q && AllBefore(p, a) && AllAfter(a, q)
    && prev == if p == [] then None else Some(p[|p| - 1])
  }

  lemma Regroup<T>(p: seq<T>, f: seq<T>, x: T, r: seq<T>, q: seq<T>)
    ensures p + (f + [x] + r) + q == p + f + ([x] + r + q)
    ensures p + (f + [x] + r) + q == (p + f + [x]) + r + q
  {
  }

  lemma Peel<T>(p: seq<T>, q: seq<T>)
    requires |p| < |p + q|
    ensures q != [] && (p + q)[|p|] == q[0] && p + q == p + [q[0]] + q[1..]
  {
    assert q == [q[0]] + q[1..];
  }

  lemma Beyond(a: Area, b: Area, r: seq<Area>, q: seq<Area>)
    requires Before(a, b) && Proper(b) && AllAfter(b, r) && AllAfter(a, q)
    ensures AllAfter(a, [b] + r + q)
  {
    var q' := [b] + r + q;
    forall i | 0 <= i < |q'| ensures Before(a, q'[i]) { if 0 < i <= |r| { assert Before(b, r[i - 1]); } }
  }

  lemma Below(p: seq<Area>, f: seq<Area>, b: Area, a: Area)
    requires Before(b, a) && Proper(b) && AllBefore(f, b) && AllBefore(p, a)
    ensures AllBefore(p + f + [b], a)
  {
    var p' := p + f + [b];
    forall i | 0 <= i < |p'| ensures Before(p'[i], a) { if |p| <= i < |p| + |f| { assert Before(f[i - |p|], b); } }
  }

  lemma SeekLeft(l: seq<Area>, p: seq<Area>, t: Tree, q: seq<Area>, a: Area, prev: Option<Area>)
    requires Seeking(l, p, t, q, a, prev) && t.Node? && Before(a, t.area) && Proper(a)
    ensures Seeking(l, p, t.left, [t.area] + Inorder(t.right) + q, a, prev)
  {
    SortedParts(t);
    Regroup(p, Inorder(t.left), t.area, Inorder(t.right), q);
    Beyond(a, t.area, Inorder(t.right), q);
  }

  lemma SeekRight(l: seq<Area>, p: seq<Area>, t: Tree, q: seq<Area>, a: Area, prev: Option<Area>)
    requires Seeking(l, p, t, q, a, prev) && t.Node? && Before(t.area, a) && Proper(a)
    ensures Seeking(l, p + Inorder(t.left) + [t.area], t.right, q, a, Some(t.area))
  {
    SortedParts(t);
    Regroup(p, Inorder(t.left), t.area, Inorder(t.right), q);
    Below(p, Inorder(t.left), t.area, a);
  }

  lemma Overlap(l: seq<Area>, p: seq<Area>, t: Tree, q: seq<Area>, a: Area, prev: Option<Area>)
    requires Seeking(l, p, t, q, a, prev) && t.Node? && !Clear(t.area, a.start, a.end)
    ensures !Free(l, a.start, a.end)
  {
    assert l[|p| + |Inorder(t.left)|] == t.area;
  }

  lemma Arrived(l: seq<Area>, p: seq<Area>, q: seq<Area>, a: Area, prev: Option<Area>)
    requires Sorted(l) && Seeking(l, p, Leaf, q, a, prev) && Proper(a)
    ensures l == p + q && Place(l, |p|, a) && Free(l, a.start, a.end) && Sorted(p + [a] + q)
    ensures (if prev.None? then [a] + l else After(l, prev.value, a)) == p + [a] + q
  {
    assert l == p + q;
    Fits(p, q, a);
    PlaceSorted(l, |p|, a);
    assert l[..|p|] == p && l[|p|..] == q;
    if p != [] {
      assert l[|p| - 1] == p[|p| - 1];
      Distinct(l, |p| - 1);
      AfterIs(l, |p| - 1, a);
    } else {
      assert l == q && [a] + l == p + [a] + q;
    }
  }

  // ---- Room for a new area -------------------------------------------------------------------

  /** A range of n bytes at p within bounds that no area touches. */
  ghost predicate Fit(l: seq<Area>, lo: int, hi: int, n: int, p: int) { lo <= p && p + n <= hi && Free(l, p, p + n) }

  ghost predicate NoneBelow(l: seq<Area>, lo: int, hi: int, n: int, b: int) {
    forall r {:trigger Fit(l, lo, hi, n, r)} :: Fit(l, lo, hi, n, r) ==> b <= r
  }

  /** The lowest address that fits. */
  ghost predicate Lowest(l: seq<Area>, lo: int, hi: int, n: int, p: int) {
    Fit(l, lo, hi, n, p) && p % PAGE == 0 && NoneBelow(l, lo, hi, n, p)
  }

  ghost predicate NoRoom(l: seq<Area>, lo: int, hi: int, n: int) { forall r :: !Fit(l, lo, hi, n, r) }

  lemma RoundsUp(n: int)
    requires n > 0
    ensures n <= RoundUp(n) < n + PAGE && RoundUp(n) % PAGE == 0
  {
  }

  lemma RoundsUpOnce(n: int)
    requires n > 0
    ensures RoundUp(RoundUp(n)) == RoundUp(n) > 0
  {
  }

  lemma RoundsUpTo(n: int)
    requires n >= 0
    ensures RoundUp(n) >= n
  {
  }

  lemma AlignedSum(a: int, b: int)
    requires a % PAGE == 0 && b % PAGE == 0
    ensures (a + b) % PAGE == 0
  {
  }

  lemma WrapAligned(a: int, n: int)
    requires a % PAGE == 0
    ensures Sum(a, Rounded(n)) % PAGE == 0
  {
    Whole((n + (PAGE - 1)) / PAGE);
    WordAligned(RoundUp(n));
    AlignedSum(a, Rounded(n));
    WordAligned(a + Rounded(n));
  }

  lemma Whole(k: int)
    ensures k * PAGE % PAGE == 0
  {
  }

  // Wrapping around keeps whole pages whole.
  lemma WordAligned(x: int)
    requires x % PAGE == 0
    ensures x % WORD % PAGE == 0
  {
    var q, m := x / PAGE, x / WORD;
    assert x == q * PAGE && x % WORD == x - m * WORD;
    Whole(q - m * 0x10_0000_0000_0000);
  }

  /** The end of a range is right, and above its start, if and only if it is below 2^64. */
  lemma EndIff(addr: int, length: int)
    requires 0 <= addr < WORD && 0 < length < WORD && addr % PAGE == 0
    ensures var end := addr + RoundUp(length);
            && (Sum(addr, Rounded(length)) == end <==> end < WORD)
            && (addr < Sum(addr, Rounded(length)) <==> end < WORD)
  {
    RoundsUp(length);
    RoundedIs(length);
    PagesTo(addr, RoundUp(length));
  }

  // Sums of whole pages.
  lemma PagesTo(a: int, n: int)
    requires 0 <= a < WORD && 0 < n <= WORD
    ensures n < WORD ==> Sum(a, n) == if a + n < WORD then a + n else a + n - WORD
    ensures n == WORD ==> Sum(a, 0) == a
  {
  }

  lemma RoundedIs(n: int)
    requires 0 < n < WORD
    ensures Rounded(n) == if n <= WORD - PAGE then RoundUp(n) else 0
    ensures n <= WORD - PAGE ==> RoundUp(n) <= WORD - PAGE
  {
  }

  lemma FirstGap(l: seq<Area>, lo: int, hi: int, n: int)
    requires Sorted(l) && l != [] && n > 0 && l[0].start < lo + n
    ensures NoneBelow(l, lo, hi, n, l[0].end)
  {
    forall r | Fit(l, lo, hi, n, r) ensures l[0].end <= r { assert Clear(l[0], r, r + n); }
  }

  /** The gap behind area i takes the range, or it has to lie behind the next area. */
  lemma NextGap(l: seq<Area>, lo: int, hi: int, n: int, i: int, from: int, to: int)
    requires Sorted(l) && 0 <= i < |l| && n > 0 && lo % PAGE == 0 && NoneBelow(l, lo, hi, n, l[i].end)
    requires from == if l[i].end < lo then lo else l[i].end
    requires var next := if i + 1 < |l| then l[i + 1].start else hi; to == if next > hi then hi else next
    ensures to - from >= n ==> Lowest(l, lo, hi, n, from)
    ensures to - from < n ==> if i + 1 < |l| then NoneBelow(l, lo, hi, n, l[i + 1].end) else NoRoom(l, lo, hi, n)
  {
    if to - from >= n {
      GapFits(l, lo, hi, n, i, from, to);
    } else {
      forall r | Fit(l, lo, hi, n, r) ensures i + 1 < |l| && l[i + 1].end <= r {
        assert i + 1 < |l| ==> Clear(l[i + 1], r, r + n);
      }
    }
  }

  lemma GapFits(l: seq<Area>, lo: int, hi: int, n: int, i: int, from: int, to: int)
    requires Sorted(l) && 0 <= i < |l| && n > 0 && lo % PAGE == 0 && NoneBelow(l, lo, hi, n, l[i].end)
    requires from == if l[i].end < lo then lo else l[i].end
    requires var next := if i + 1 < |l| then l[i + 1].start else hi; to == if next > hi then hi else next
    requires to - from >= n
    ensures Lowest(l, lo, hi, n, from)
  {
    assert Proper(l[i]);
    forall j | 0 <= j < |l| ensures Clear(l[j], from, from + n) {
      if j < i { assert Before(l[j], l[i]); }
      if j > i + 1 { assert Before(l[i + 1], l[j]) && Proper(l[i + 1]); }
    }
    assert Fit(l, lo, hi, n, from);
  }

  /** An area that was added gives its addresses their meaning and leaves the others alone. */
  lemma AddedLook(l: seq<Area>, m: seq<Area>, k: int, a: Area, x: int)
    requires Sorted(l) && Added(l, m, k, a)
    ensures Look(m, x) == if Holds(a, x) then Some(MeaningOf(a, x)) else Look(l, x)
  {
    PlaceSorted(l, k, a);
    if Holds(a, x) {
      assert m[k] == a;
      LookFound(m, k, x);
    } else {
      LookConcat(l[..k] + [a], l[k..], x);
      LookConcat(l[..k], [a], x);
      LookConcat(l[..k], l[k..], x);
      LookNone([a], x);
      assert l[..k] + l[k..] == l;
    }
  }

  /** An address a caller may ask for. */
  ghost predicate Allowed(l: seq<Area>, hint: int, n: int, limit: int) {
    LOWEST_HINT <= hint && hint + n <= limit && Free(l, hint / PAGE * PAGE, RoundUp(hint + n))
  }

  /** A length of more than 2^64 - 4096 is rounded to none; at an address inside a page that still makes one page. */
  ghost predicate OnePage(l: seq<Area>, hint: int, limit: int) {
    LOWEST_HINT <= hint <= limit && hint % PAGE != 0 && Free(l, hint / PAGE * PAGE, RoundUp(hint))
  }

  // An end that wrapped around makes no area.
  lemma WrappedEnd(start: int, n: int)
    requires 0 <= start < WORD && 0 < n <= WORD - PAGE && n % PAGE == 0 && start + n >= WORD
    ensures Sum(start, n) == start + n - WORD && RoundUp(Sum(start, n)) <= start / PAGE * PAGE
  {
    PagesTo(start, n);
    var end := start + n - WORD;
    assert end <= start - PAGE;
    FloorMono(end + (PAGE - 1), start);
  }

  lemma FloorMono(a: int, b: int)
    requires a <= b
    ensures a / PAGE * PAGE <= b / PAGE * PAGE
  {
  }

  lemma SamePage(start: int)
    ensures start / PAGE * PAGE < RoundUp(start) <==> start % PAGE != 0
  {
  }

  lemma Fits(p: seq<Area>, q: seq<Area>, x: Area)
    requires Proper(x) && AllBefore(p, x) && AllAfter(x, q)
    ensures Place(p + q, |p|, x) && Free(p + q, x.start, x.end)
  {
    var l := p + q;
    forall i | 0 <= i < |p| ensures Before(l[i], x) { assert Before(p[i], x); }
    forall i | |p| <= i < |l| ensures Before(x, l[i]) { assert Before(x, q[i - |p|]); }
    forall i | 0 <= i < |l| ensures Clear(l[i], x.start, x.end) { assert if i < |p| then Before(l[i], x) else Before(x, l[i]); }
  }

  lemma Within(p: seq<Area>, c: Area, q: seq<Area>, x: Area)
    requires AllBefore(p, c) && AllAfter(c, q) && c.start <= x.start && x.end <= c.end
    ensures AllBefore(p, x) && AllAfter(x, q)
  {
    forall i | 0 <= i < |p| ensures Before(p[i], x) { assert Before(p[i], c); }
    forall i | 0 <= i < |q| ensures Before(x, q[i]) { assert Before(c, q[i]); }
  }

  /** The area a mapping makes: whole pages around the range. */
  function Made(start: int, end: int, kind: Kind, flags: int, file: int, offset: int): Area {
    Area(start / PAGE * PAGE, RoundUp(end), kind, flags, file, offset)
  }

  lemma MadeProper(start: int, end: int, kind: Kind, flags: int, file: int, offset: int)
    ensures start / PAGE * PAGE < RoundUp(end) ==> Proper(Made(start, end, kind, flags, file, offset))
    ensures start < end ==> start / PAGE * PAGE < RoundUp(end)
    ensures start % PAGE == 0 && end % PAGE == 0 ==> Made(start, end, kind, flags, file, offset) == Area(start, end, kind, flags, file, offset)
  {
  }

  // ---- Runs ----------------------------------------------------------------------------------

  /** What processes ask for; `memory` says whether there is any for an area at that time. */
  datatype Call =
    | MapCall(hint: int, length: int, kind: Kind, flags: int, file: int, offset: int, memory: bool)
    | UnmapCall(addr: int, length: int, memory: bool)

  /** Lengths round to at least a page, and the range to unmap ends below 2^64. */
  predicate CallOk(c: Call) {
    && 0 <= c.length <= WORD - PAGE
    && if c.MapCall? then 0 <= c.hint < WORD else 0 <= c.addr && c.addr + RoundUp(c.length) < WORD
  }

  /** Where a mapping ends up: where it was asked for, or at the lowest free place. */
  ghost predicate Placed(l: seq<Area>, c: Call, start: int, base: int, limit: int) {
    c.MapCall? ==>
      if c.length == 0 || !c.memory then start == 0
      else if c.hint != 0 then start == if Allowed(l, c.hint, RoundUp(c.length), limit) then c.hint else 0
      else if start == 0 then NoRoom(l, base, limit, RoundUp(c.length)) else Lowest(l, base, limit, RoundUp(c.length), start)
  }

  /** An unmap takes effect: it is well formed, and there is memory where an area has to be split. */
  ghost predicate Clears(l: seq<Area>, c: Call) {
    && c.UnmapCall? && c.length > 0 && c.addr % PAGE == 0
    && (c.memory || forall i :: 0 <= i < |l| ==> !Inside(l[i], c.addr, c.addr + RoundUp(c.length)))
  }

  /** What a call makes of one address. */
  function FlatStep(m: Option<Meaning>, c: Call, start: int, clears: bool, x: int): Option<Meaning> {
    match c
    case MapCall(_, length, kind, flags, file, offset, _) =>
      var lo := start / 4096 * 4096;
      if start != 0 && lo <= x < RoundUp(start + RoundUp(length))
      then Some(Meaning(kind, flags, file, if kind == FileBacked then offset + (x - lo) else 0)) else m
    case UnmapCall(addr, length, _) => if clears && addr <= x < addr + RoundUp(length) then None else m
  }

  /** One call, at every address. */
  ghost predicate Served(l: seq<Area>, c: Call, start: int, l': seq<Area>) {
    forall x {:trigger Look(l', x)} :: Look(l', x) == FlatStep(Look(l, x), c, start, Clears(l, c), x)
  }

  function FlatRun(m: Option<Meaning>, calls: seq<Call>, starts: seq<int>, clears: seq<bool>, x: int): Option<Meaning>
    requires |starts| == |calls| == |clears|
    decreases |calls|
  {
    if calls == [] then m
    else
      var n := |calls| - 1;
      FlatStep(FlatRun(m, calls[..n], starts[..n], clears[..n], x), calls[n], starts[n], clears[n], x)
  }

  ghost predicate Uncut(a: Area, lo: int, hi: int) { CutOne(a, lo, hi, false) == [a] }

  lemma {:induction false} CutKeeps(l: seq<Area>, lo: int, hi: int)
    requires forall i :: 0 <= i < |l| ==> Uncut(l[i], lo, hi)
    ensures Cut(l, lo, hi, false) == l
    decreases |l|
  {
    if l != [] {
      var n := |l| - 1;
      CutKeeps(l[..n], lo, hi);
      assert Uncut(l[n], lo, hi) && l[..n] + [l[n]] == l;
    }
  }

  // Without memory, an area around the range keeps everything as it is.
  lemma NothingCut(l: seq<Area>, lo: int, hi: int, k: int)
    requires Sorted(l) && lo < hi && 0 <= k < |l| && Inside(l[k], lo, hi)
    ensures Cut(l, lo, hi, false) == l
  {
    forall i | 0 <= i < |l| ensures Uncut(l[i], lo, hi) {
      assert Proper(l[i]);
      if i < k { assert Before(l[i], l[k]); } else if i > k { assert Before(l[k], l[i]); }
    }
    CutKeeps(l, lo, hi);
  }

  lemma UnmapServes(l: seq<Area>, c: Call, l': seq<Area>)
    requires Sorted(l) && CallOk(c) && c.UnmapCall?
    requires var ok := c.length > 0 && c.addr % PAGE == 0; l' == if ok then Cut(l, c.addr, Sum(c.addr, Rounded(c.length)), c.memory) else l
    ensures Served(l, c, 0, l')
  {
    if c.length > 0 && c.addr % PAGE == 0 {
      RoundsUp(c.length);
      EndIff(c.addr, c.length);
      var lo, hi := c.addr, c.addr + RoundUp(c.length);
      if Clears(l, c) {
        forall x ensures Look(l', x) == if lo <= x < hi then None else Look(l, x) { CutLook(l, lo, hi, c.memory, x); }
      } else {
        var k :| 0 <= k < |l| && Inside(l[k], lo, hi);
        NothingCut(l, lo, hi, k);
      }
    }
  }

  lemma MapServes(l: seq<Area>, c: Call, start: int, k: int, l': seq<Area>, limit: int)
    requires Sorted(l) && c.MapCall?
    requires start == 0 ==> l' == l
    requires CallOk(c) && limit <= WORD - PAGE && (start != 0 ==> 0 < c.length && 0 < start && start + RoundUp(c.length) <= limit)
    requires start != 0 ==> Added(l, l', k, Made(start, Sum(start, Rounded(c.length)), c.kind, c.flags, c.file, c.offset))
    ensures Served(l, c, start, l')
  {
    if start != 0 {
      RoundsUp(c.length);
      RoundedIs(c.length);
      PagesTo(start, RoundUp(c.length));
      var a := Area(start / 4096 * 4096, RoundUp(start + RoundUp(c.length)), c.kind, c.flags, c.file, c.offset);
      forall x ensures Look(l', x) == if Holds(a, x) then Some(MeaningOf(a, x)) else Look(l, x) { AddedLook(l, l', k, a, x); }
    }
  }

  /** Over any run an address means what the calls that took effect on it, one after the other, make of it. */
  lemma {:induction false} RunLooks(lists: seq<seq<Area>>, calls: seq<Call>, starts: seq<int>, clears: seq<bool>, x: int)
    requires |starts| == |calls| == |clears| && |lists| == |calls| + 1
    requires forall i {:trigger calls[i]} :: 0 <= i < |calls| ==>
               Served(lists[i], calls[i], starts[i], lists[i + 1]) && clears[i] == Clears(lists[i], calls[i])
    ensures Look(lists[|calls|], x) == FlatRun(Look(lists[0], x), calls, starts, clears, x)
    decreases |calls|
  {
    if calls != [] {
      var n := |calls| - 1;
      assert forall i {:trigger calls[..n][i]} :: 0 <= i < n ==> calls[..n][i] == calls[i];
      RunLooks(lists[..n + 1], calls[..n], starts[..n], clears[..n], x);
      assert Served(lists[n], calls[n], starts[n], lists[n + 1]);
    }
  }

  class AreaSet {
    var list: seq<Area>
    var tree: Tree

    ghost predicate Valid()
      reads this
    {
      Sorted(list) && Inorder(tree) == list
    }

    constructor ()
      ensures Valid() && list == []
    {
      list, tree := [], Leaf;
    }

    /** The area that holds an address, if any does. */
    method Find(x: int) returns (r: Option<Area>)
      requires Valid()
      ensures r.Some? ==> r.value in list && Holds(r.value, x) && Look(list, x) == Some(MeaningOf(r.value, x))
      ensures r.None? ==> Look(list, x) == None
    {
      var cur := tree;
      while cur.Node?
        invariant SortedTree(cur) && OnlyBelow(list, cur, x)
        decreases cur
      {
        SortedParts(cur);
        var a := cur.area;
        if a.start <= x < a.end {
          assert a in Inorder(cur);
          ghost var k :| 0 <= k < |list| && list[k] == a;
          LookFound(list, k, x);
          return Some(a);
        }
        Narrow(list, cur, x);
        cur := if x < a.start then cur.left else cur.right;
      }
      LookNone(list, x);
      return None;
    }

    /** Adds an area unless it overlaps one that is there. */
    method Insert(a: Area) returns (ok: bool, ghost k: int)
      requires Valid() && Proper(a)
      modifies this
      ensures Valid() && ok == Free(old(list), a.start, a.end)
      ensures ok ==> Added(old(list), list, k, a)
      ensures !ok ==> list == old(list) && tree == old(tree)
    {
      var cur, prev := tree, None;
      ghost var p: seq<Area>, q: seq<Area> := [], [];
      assert list == [] + Inorder(tree) + [];
      while cur.Node?
        invariant list == old(list) && tree == old(tree) && Seeking(list, p, cur, q, a, prev)
        decreases cur
      {
        var b := cur.area;
        SortedParts(cur);
        if !(a.end <= b.start || a.start >= b.end) {
          Overlap(list, p, cur, q, a, prev);
          return false, 0;
        }
        if a.end <= b.start {
          SeekLeft(list, p, cur, q, a, prev);
          q := [b] + Inorder(cur.right) + q;
          cur := cur.left;
        } else {
          SeekRight(list, p, cur, q, a, prev);
          p := p + Inorder(cur.left) + [b];
          prev := Some(b);
          cur := cur.right;
        }
      }
      Arrived(list, p, q, a, prev);
      GraftInorder(tree, p, q, a);
      tree := Graft(tree, a);
      list := if prev.None? then [a] + list else After(list, prev.value, a);
      assert p == old(list)[..|p|] && q == old(list)[|p|..];
      return true, |p|;
    }

    /** Takes out an area that is there. */
    method Remove(a: Area, ghost p: seq<Area>, ghost q: seq<Area>)
      requires Valid() && list == p + [a] + q
      modifies this
      ensures Valid() && list == p + q
    {
      Distinct(list, |p|);
      WithoutIs(list, |p|);
      DropSorted(list, |p|);
      assert list[|p|] == a && list[..|p|] == p && list[|p| + 1..] == q;
      Surround(p, a, q);
      EraseInorder(tree, p, a, q);
      list := Without(list, a);
      tree := Erase(tree, a.start);
    }

    /** The lowest page at which a range fits, or 0 if there is none. */
    method FindFree(lo: int, hi: int, length: int) returns (p: int)
      requires Valid() && 0 < lo && lo % PAGE == 0 && hi % PAGE == 0 && 0 <= length
      ensures length == 0 ==> p == 0
      ensures length > 0 ==> (if p == 0 then NoRoom(list, lo, hi, RoundUp(length)) else Lowest(list, lo, hi, RoundUp(length), p))
    {
      if length > 0 { RoundsUp(length); }
      if length == 0 || lo >= hi || length > hi - lo { return 0; }
      var n := RoundUp(length);
      if tree.Leaf? {
        assert Free(list, lo, lo + n);
        return if lo + n <= hi then lo else 0;
      }
      assert |list| > 0;
      if list[0].start >= lo + n {
        forall j | 0 <= j < |list| ensures Clear(list[j], lo, lo + n) { if j > 0 { assert Before(list[0], list[j]) && Proper(list[0]); } }
        return lo;
      }
      FirstGap(list, lo, hi, n);
      for i := 0 to |list|
        invariant i < |list| ==> NoneBelow(list, lo, hi, n, list[i].end)
        invariant i == |list| ==> NoRoom(list, lo, hi, n)
      {
        var candidate := list[i].end;
        var gapEnd := if i + 1 < |list| then list[i + 1].start else hi;
        if candidate < lo { candidate := lo; }
        if gapEnd > hi { gapEnd := hi; }
        NextGap(list, lo, hi, n, i, candidate, gapEnd);
        if gapEnd >= candidate && gapEnd - candidate >= n { return candidate; }
      }
      return 0;
    }

    /** A new mapping, where the caller asks for it or at the lowest free place. It fails only for want of room, of
        memory or of a free range at the address asked for, and then changes nothing. */
    method Map(hint: int, length: int, kind: Kind, flags: int, file: int, offset: int, base: int, limit: int, memory: bool)
      returns (start: int, ghost k: int)
      requires Valid() && 0 < base && base % PAGE == 0 && limit % PAGE == 0 && limit <= WORD - PAGE && 0 <= length < WORD && 0 <= hint < WORD
      modifies this
      ensures Valid() && (start == 0 ==> list == old(list))
      ensures start != 0 ==> Added(old(list), list, k, Made(start, Sum(start, Rounded(length)), kind, flags, file, offset))
      ensures hint == 0 && length > 0 ==> (start == 0 <==> !memory || NoRoom(old(list), base, limit, RoundUp(length)))
      ensures hint == 0 && start != 0 ==> Lowest(old(list), base, limit, RoundUp(length), start)
      ensures hint != 0 && length <= WORD - PAGE ==>
                start == if length > 0 && memory && Allowed(old(list), hint, RoundUp(length), limit) then hint else 0
      ensures hint != 0 && length > WORD - PAGE ==> start == if memory && OnePage(old(list), hint, limit) then hint else 0
    {
      if length == 0 { return 0, 0; }
      RoundsUp(length);
      RoundedIs(length);
      var n := Rounded(length);
      if hint == 0 {
        start, k := MapLowest(n, kind, flags, file, offset, base, limit, memory);
        if n == 0 { forall r ensures !Fit(list, base, limit, RoundUp(length), r) { } }
      } else {
        start, k := MapHere(hint, n, kind, flags, file, offset, limit, memory);
      }
    }

    method MapLowest(n: int, kind: Kind, flags: int, file: int, offset: int, base: int, limit: int, memory: bool)
      returns (start: int, ghost k: int)
      requires Valid() && 0 < base && base % PAGE == 0 && limit % PAGE == 0 && limit <= WORD - PAGE && 0 <= n && n % PAGE == 0
      modifies this
      ensures Valid() && (start == 0 ==> list == old(list))
      ensures n == 0 ==> start == 0
      ensures start != 0 ==> Added(old(list), list, k, Made(start, Sum(start, n), kind, flags, file, offset))
      ensures n > 0 ==> (start == 0 <==> !memory || NoRoom(old(list), base, limit, n))
      ensures start != 0 ==> Lowest(old(list), base, limit, n, start)
    {
      if n > 0 { RoundsUp(n); }
      start := FindFree(base, limit, n);
      if start == 0 { return 0, 0; }
      PagesTo(start, n);
      AlignedSum(start, n);
      var ok;
      ok, k := Put(start, Sum(start, n), kind, flags, file, offset, memory);
      if !ok { start := 0; }
    }

    method MapHere(hint: int, n: int, kind: Kind, flags: int, file: int, offset: int, limit: int, memory: bool)
      returns (start: int, ghost k: int)
      requires Valid() && limit <= WORD - PAGE && 0 <= n <= WORD - PAGE && n % PAGE == 0 && 0 < hint < WORD
      modifies this
      ensures Valid() && (start == 0 ==> list == old(list))
      ensures start != 0 ==> Added(old(list), list, k, Made(start, Sum(start, n), kind, flags, file, offset))
      ensures n > 0 ==> start == if memory && Allowed(old(list), hint, n, limit) then hint else 0
      ensures n == 0 ==> start == if memory && OnePage(old(list), hint, limit) then hint else 0
    {
      start := hint;
      if n > 0 { PagesTo(start, n); } else { SamePage(start); }
      if n > 0 && start + n >= WORD { WrappedEnd(start, n); }
      if start < LOWEST_HINT || Sum(start, n) > limit { return 0, 0; }
      var ok;
      ok, k := Put(start, Sum(start, n), kind, flags, file, offset, memory);
      if !ok { start := 0; }
    }

    /** Makes an area and adds it; there is none if its end is not above its start. */
    method Put(start: int, end: int, kind: Kind, flags: int, file: int, offset: int, memory: bool) returns (ok: bool, ghost k: int)
      requires Valid()
      modifies this
      ensures Valid() && (!ok ==> list == old(list))
      ensures ok == (memory && start / PAGE * PAGE < RoundUp(end) && Free(old(list), start / PAGE * PAGE, RoundUp(end)))
      ensures start % PAGE == 0 && end % PAGE == 0 && start < end ==> ok == (memory && Free(old(list), start, end))
      ensures start < end ==> start / PAGE * PAGE < RoundUp(end)
      ensures ok ==> Added(old(list), list, k, Made(start, end, kind, flags, file, offset))
    {
      MadeProper(start, end, kind, flags, file, offset);
      if start / PAGE * PAGE >= RoundUp(end) || !memory { return false, 0; }
      ok, k := Insert(Made(start, end, kind, flags, file, offset));
    }

    /** One area is replaced by a part of itself. */
    method Shorten(c: Area, x: Area, ghost p: seq<Area>, ghost q: seq<Area>)
      requires Valid() && list == p + [c] + q && Proper(x) && c.start <= x.start && x.end <= c.end
      modifies this
      ensures Valid() && list == p + [x] + q
    {
      Surround(p, c, q);
      Remove(c, p, q);
      Within(p, c, q, x);
      Fits(p, q, x);
      var _, k := Insert(x);
      OnePlace(p + q, k, |p|, x);
      assert (p + q)[..k] == p && (p + q)[k..] == q;
    }

    /** Unmaps a range of whole pages: every area loses its part of the range. */
    method Unmap(addr: int, length: int, memory: bool) returns (ok: bool)
      requires Valid() && 0 <= addr < WORD && 0 <= length < WORD
      modifies this
      ensures Valid() && ok == (length > 0 && addr % PAGE == 0)
      ensures list == if ok then Cut(old(list), addr, Sum(addr, Rounded(length)), memory) else old(list)
    {
      if length == 0 || addr % PAGE != 0 { return false; }
      var end := Sum(addr, Rounded(length));
      WrapAligned(addr, length);
      UnmapRange(addr, end, memory);
      return true;
    }

    method UnmapRange(addr: int, end: int, memory: bool)
      requires Valid() && addr % PAGE == 0 && end % PAGE == 0
      modifies this
      ensures Valid() && list == Cut(old(list), addr, end, memory)
    {
      ghost var l, j := list, 0;
      var i := 0;
      MidStart(l, addr, end, memory);
      while i < |list|
        invariant Valid() && Midway(l, j, list, i, addr, end, memory)
        decreases |l| - j
      {
        i := UnmapNext(i, addr, end, memory, l, j);
        j := j + 1;
      }
      MidEnd(l, j, list, i, addr, end, memory);
    }

    method UnmapNext(i: int, addr: int, end: int, memory: bool, ghost l: seq<Area>, ghost j: int) returns (i': int)
      requires Valid() && addr % PAGE == 0 && end % PAGE == 0 && Midway(l, j, list, i, addr, end, memory) && i < |list|
      modifies this
      ensures Valid() && Midway(l, j + 1, list, i', addr, end, memory)
    {
      MidStep(l, j, list, i, addr, end, memory);
      i' := UnmapOne(i, addr, end, memory, Cut(l[..j], addr, end, memory), l[j + 1..]);
    }

    method UnmapOne(i: int, addr: int, end: int, memory: bool, ghost p: seq<Area>, ghost q: seq<Area>) returns (i': int)
      requires Valid() && 0 <= i < |list| && i == |p| && list == p + [list[i]] + q && addr % PAGE == 0 && end % PAGE == 0
      modifies this
      ensures Valid() && list == p + CutOne(old(list)[i], addr, end, memory) + q && i' == |p| + |CutOne(old(list)[i], addr, end, memory)|
    {
      var c := list[i];
      Surround(p, c, q);
      if c.start >= end || c.end <= addr { return i + 1; }
      if c.start >= addr && c.end <= end {
        Remove(c, p, q);
        return i;
      }
      if c.start < addr && c.end > end {
        if !memory { return i + 1; }
        var right := SplitRight(c, end);
        Shorten(c, LeftOf(c, addr), p, q);
        if addr <= end {
          Within(p, c, q, right);
          Below(p, [], LeftOf(c, addr), right);
          assert p + [] == p;
          Fits(p + [LeftOf(c, addr)], q, right);
        } else {
          assert list[|p|] == LeftOf(c, addr) && !Clear(list[|p|], right.start, right.end);
        }
        var ok, k := Insert(right);
        if ok { OnePlace(p + [LeftOf(c, addr)] + q, k, |p| + 1, right); }
        return if ok then i + 2 else i + 1;
      }
      Shorten(c, if c.start < addr then LeftOf(c, addr) else TrimRight(c, end), p, q);
      return i + 1;
    }

    method ServeOne(c: Call, base: int, limit: int) returns (start: int)
      requires Valid() && CallOk(c) && 0 < base && base % PAGE == 0 && limit % PAGE == 0 && limit <= WORD - PAGE
      modifies this
      ensures Valid() && Placed(old(list), c, start, base, limit) && Served(old(list), c, start, list)
    {
      match c
      case MapCall(hint, length, kind, flags, file, offset, memory) =>
        ghost var k;
        start, k := Map(hint, length, kind, flags, file, offset, base, limit, memory);
        assert start != 0 ==> length > 0 && start + RoundUp(length) <= limit && start > 0;
        MapServes(old(list), c, start, k, list, limit);
      case UnmapCall(addr, length, memory) =>
        RoundsUpTo(length);
        var _ := Unmap(addr, length, memory);
        start := 0;
        UnmapServes(old(list), c, list);
    }

    /** Any run of mappings and unmappings: every one is placed as promised and does at every address what it says. */
    method Serve(calls: seq<Call>, base: int, limit: int) returns (starts: seq<int>, ghost clears: seq<bool>, ghost lists: seq<seq<Area>>)
      requires Valid() && 0 < base && base % PAGE == 0 && limit % PAGE == 0 && limit <= WORD - PAGE
      requires forall i :: 0 <= i < |calls| ==> CallOk(calls[i])
      modifies this
      ensures Valid() && |starts| == |calls| == |clears| && |lists| == |calls| + 1 && lists[0] == old(list) && lists[|calls|] == list
      ensures forall i {:trigger calls[i]} :: 0 <= i < |calls| ==> Placed(lists[i], calls[i], starts[i], base, limit) && clears[i] == Clears(lists[i], calls[i])
      ensures forall x :: Look(list, x) == FlatRun(Look(old(list), x), calls, starts, clears, x)
    {
      starts, clears, lists := [], [], [list];
      for i := 0 to |calls|
        invariant Valid() && |starts| == i == |clears| && |lists| == i + 1 && lists[0] == old(list) && lists[i] == list
        invariant forall j {:trigger calls[j]} :: 0 <= j < i ==>
                    && Placed(lists[j], calls[j], starts[j], base, limit) && clears[j] == Clears(lists[j], calls[j])
                    && Served(lists[j], calls[j], starts[j], lists[j + 1])
      {
        clears := clears + [Clears(list, calls[i])];
        var start := ServeOne(calls[i], base, limit);
        starts, lists := starts + [start], lists + [list];
      }
      forall x ensures Look(list, x) == FlatRun(Look(old(list), x), calls, starts, clears, x) { RunLooks(lists, calls, starts, clears, x); }
    }
  }
}
