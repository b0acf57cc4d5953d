/**
 The slab allocator of mem/slab.c: slabs of equal objects, magazines of objects per processor, and a depot of full
 magazines. A slab is named by the page it stands on, an object by its slab and index.
 */
module SlabCache {
  import opened Arithmetic
  import opened Basics

  const KEPT_EMPTY := 4

  datatype Obj = Obj(slab: int, idx: int)

  datatype Slab = Slab(inuse: int, free: seq<int>)

  type Magazine = seq<Obj>

  datatype Cpu = Cpu(loaded: Option<Magazine>, previous: Option<Magazine>)

  /** `live` are the objects in callers' hands; `spares` counts the empty magazines of the depot. */
  datatype Cache = Cache(slabs: map<int, Slab>, partial: seq<int>, full: seq<int>, empty: seq<int>, emptyCount: int,
                         cpus: seq<Cpu>, depot: seq<Magazine>, spares: int, live: multiset<Obj>)

  /** What never changes: objects in a slab, objects in a full magazine, and the order of a new free list. */
  datatype Shape = Shape(total: int, capacity: int, ctor: bool)

  predicate ShapeOk(p: Shape) { p.total >= 0 && p.capacity > 0 }

  // ---- Where the objects are -----------------------------------------------------------------

  /** How often something is in a list. */
  function Times<T(==)>(q: seq<T>, x: T): (n: int)
    ensures n >= 0
  {
    if q == [] then 0 else (if q[0] == x then 1 else 0) + Times(q[1..], x)
  }

  function InMag(m: Option<Magazine>, o: Obj): int { if m.None? then 0 else Times(m.value, o) }

  function InCpu(c: Cpu, o: Obj): int { InMag(c.loaded, o) + InMag(c.previous, o) }

  function InCpus(cpus: seq<Cpu>, o: Obj): int {
    if cpus == [] then 0 else InCpu(cpus[0], o) + InCpus(cpus[1..], o)
  }

  function InDepot(depot: seq<Magazine>, o: Obj): int {
    if depot == [] then 0 else Times(depot[0], o) + InDepot(depot[1..], o)
  }

  /** In how many hands an object is that its slab has given out: magazine slots or callers. */
  function Out(s: Cache, o: Obj): int { InCpus(s.cpus, o) + InDepot(s.depot, o) + s.live[o] }

  predicate Exists(p: Shape, s: Cache, o: Obj) { o.slab in s.slabs && 0 <= o.idx < p.total }

  function FreeCount(s: Cache, o: Obj): int { if o.slab in s.slabs then Times(s.slabs[o.slab].free, o.idx) else 0 }

  /** An object is in one place: on its slab's free list, in one slot of one magazine, or with one caller. */
  ghost predicate ObjOk(p: Shape, s: Cache, o: Obj) { Out(s, o) + FreeCount(s, o) == if Exists(p, s, o) then 1 else 0 }

  ghost predicate ObjsOk(p: Shape, s: Cache) { forall o {:trigger ObjOk(p, s, o)} :: ObjOk(p, s, o) }

  /** A slab is on the list its count calls for, and on no other. One without objects stays on the partial list. */
  ghost predicate OnList(p: Shape, s: Cache, x: int)
    requires x in s.slabs
  {
    var n := s.slabs[x].inuse;
    && Times(s.partial, x) == (if 0 < n < p.total || p.total == 0 then 1 else 0)
    && Times(s.full, x) == (if n == p.total && p.total > 0 then 1 else 0)
    && Times(s.empty, x) == (if n == 0 && p.total > 0 then 1 else 0)
  }

  ghost predicate Counted(p: Shape, s: Cache, x: int)
    requires x in s.slabs
  {
    0 <= s.slabs[x].inuse <= p.total && s.slabs[x].inuse + |s.slabs[x].free| == p.total
  }

  ghost predicate Unlisted(s: Cache, x: int) { Times(s.partial, x) == 0 && Times(s.full, x) == 0 && Times(s.empty, x) == 0 }

  ghost predicate SlabOk(p: Shape, s: Cache, x: int) {
    if x in s.slabs then Counted(p, s, x) && OnList(p, s, x) else Unlisted(s, x)
  }

  ghost predicate SlabsOk(p: Shape, s: Cache) { forall x {:trigger SlabOk(p, s, x)} :: SlabOk(p, s, x) }

  predicate Small(p: Shape, m: Option<Magazine>) { m.Some? ==> |m.value| <= p.capacity }

  ghost predicate MagsOk(p: Shape, s: Cache) {
    && (forall c :: 0 <= c < |s.cpus| ==> Small(p, s.cpus[c].loaded) && Small(p, s.cpus[c].previous))
    && (forall i :: 0 <= i < |s.depot| ==> |s.depot[i]| == p.capacity)
    && s.spares >= 0
  }

  ghost predicate Inv(p: Shape, s: Cache) {
    ShapeOk(p) && ObjsOk(p, s) && SlabsOk(p, s) && MagsOk(p, s) && s.emptyCount == |s.empty| <= 4
  }

  lemma {:induction false} CpusUpdate(cpus: seq<Cpu>, c: int, x: Cpu, o: Obj)
    requires 0 <= c < |cpus|
    ensures InCpus(cpus[c := x], o) == InCpus(cpus, o) - InCpu(cpus[c], o) + InCpu(x, o)
    decreases |cpus|
  {
    if c > 0 {
      CpusUpdate(cpus[1..], c - 1, x, o);
      assert cpus[c := x][1..] == cpus[1..][c - 1 := x];
    } else {
      assert cpus[c := x][1..] == cpus[1..];
    }
  }

  lemma {:induction false} TimesAppend<T>(q: seq<T>, y: T, x: T)
    ensures Times(q + [y], x) == Times(q, x) + if y == x then 1 else 0
    decreases |q|
  {
    if q == [] {
      assert (q + [y])[1..] == [];
    } else {
      TimesAppend(q[1..], y, x);
      assert (q + [y])[1..] == q[1..] + [y];
    }
  }

  lemma TimesPush<T>(y: T, q: seq<T>, x: T)
    ensures Times([y] + q, x) == Times(q, x) + if y == x then 1 else 0
  {
    assert ([y] + q)[1..] == q;
  }

  /** Removes the first occurrence. */
  function Without(q: seq<int>, x: int): seq<int> {
    if q == [] then [] else if q[0] == x then q[1..] else [q[0]] + Without(q[1..], x)
  }

  lemma {:induction false} TimesWithout(q: seq<int>, x: int, y: int)
    ensures Times(Without(q, x), y) == Times(q, y) - if x == y && Times(q, x) > 0 then 1 else 0
    ensures |Without(q, x)| == |q| - if Times(q, x) > 0 then 1 else 0
    decreases |q|
  {
    if q != [] && q[0] != x {
      TimesWithout(q[1..], x, y);
      TimesPush(q[0], Without(q[1..], x), y);
    }
  }

  // ---- Magazines -----------------------------------------------------------------------------

  function WithCpu(s: Cache, c: int, x: Cpu): Cache
    requires 0 <= c < |s.cpus|
  {
    s.(cpus := s.cpus[c := x])
  }

  ghost predicate OutKept(s: Cache, s': Cache, o: Obj) { Out(s', o) == Out(s, o) }

  /** Moving whole magazines around, or an object between a magazine and a caller, changes no slab. */
  lemma SameOut(p: Shape, s: Cache, s': Cache)
    requires Inv(p, s) && MagsOk(p, s') && forall o {:trigger OutKept(s, s', o)} :: OutKept(s, s', o)
    requires s'.slabs == s.slabs && s'.partial == s.partial && s'.full == s.full && s'.empty == s.empty && s'.emptyCount == s.emptyCount
    ensures Inv(p, s')
  {
    forall o ensures ObjOk(p, s', o) { assert ObjOk(p, s, o) && OutKept(s, s', o); }
    forall x ensures SlabOk(p, s', x) { assert SlabOk(p, s, x); }
  }

  /** An allocation from the loaded magazine. */
  function Pop(s: Cache, c: int): Cache
    requires 0 <= c < |s.cpus| && s.cpus[c].loaded.Some? && s.cpus[c].loaded.value != []
  {
    var m := s.cpus[c].loaded.value;
    WithCpu(s, c, s.cpus[c].(loaded := Some(m[..|m| - 1]))).(live := s.live + multiset{m[|m| - 1]})
  }

  lemma PopKeeps(p: Shape, s: Cache, c: int)
    requires Inv(p, s) && 0 <= c < |s.cpus| && s.cpus[c].loaded.Some? && s.cpus[c].loaded.value != []
    ensures Inv(p, Pop(s, c))
  {
    var s', m := Pop(s, c), s.cpus[c].loaded.value;
    var rest, last := m[..|m| - 1], m[|m| - 1];
    assert m == rest + [last];
    forall o ensures OutKept(s, s', o) {
      TimesAppend(rest, last, o);
      CpusUpdate(s.cpus, c, s.cpus[c].(loaded := Some(rest)), o);
    }
    SameOut(p, s, s');
  }

  /** A free into the loaded magazine. */
  function PushObj(s: Cache, c: int, o: Obj): Cache
    requires 0 <= c < |s.cpus| && s.cpus[c].loaded.Some?
  {
    WithCpu(s, c, s.cpus[c].(loaded := Some(s.cpus[c].loaded.value + [o]))).(live := s.live - multiset{o})
  }

  lemma PushKeeps(p: Shape, s: Cache, c: int, x: Obj)
    requires Inv(p, s) && 0 <= c < |s.cpus| && s.cpus[c].loaded.Some? && |s.cpus[c].loaded.value| < p.capacity && x in s.live
    ensures Inv(p, PushObj(s, c, x))
  {
    var s', m := PushObj(s, c, x), s.cpus[c].loaded.value;
    forall o ensures OutKept(s, s', o) {
      TimesAppend(m, x, o);
      CpusUpdate(s.cpus, c, s.cpus[c].(loaded := Some(m + [x])), o);
    }
    SameOut(p, s, s');
  }

  function Swap(s: Cache, c: int): Cache
    requires 0 <= c < |s.cpus|
  {
    WithCpu(s, c, Cpu(s.cpus[c].previous, s.cpus[c].loaded))
  }

  lemma SwapKeeps(p: Shape, s: Cache, c: int)
    requires Inv(p, s) && 0 <= c < |s.cpus|
    ensures Inv(p, Swap(s, c))
  {
    var s' := Swap(s, c);
    forall o ensures OutKept(s, s', o) { CpusUpdate(s.cpus, c, Cpu(s.cpus[c].previous, s.cpus[c].loaded), o); }
    SameOut(p, s, s');
  }

  /** A full magazine comes from the depot and the empty one goes there. */
  function LoadFull(s: Cache, c: int): Cache
    requires 0 <= c < |s.cpus| && s.depot != []
  {
    WithCpu(s, c, s.cpus[c].(loaded := Some(s.depot[0])))
    .(depot := s.depot[1..], spares := s.spares + if s.cpus[c].loaded.Some? then 1 else 0)
  }

  lemma LoadKeeps(p: Shape, s: Cache, c: int)
    requires Inv(p, s) && 0 <= c < |s.cpus| && s.depot != [] && (s.cpus[c].loaded.Some? ==> s.cpus[c].loaded.value == [])
    ensures Inv(p, LoadFull(s, c)) && LoadFull(s, c).cpus[c].loaded.value != []
  {
    var s' := LoadFull(s, c);
    forall o ensures OutKept(s, s', o) { CpusUpdate(s.cpus, c, s.cpus[c].(loaded := Some(s.depot[0])), o); }
    SameOut(p, s, s');
  }

  /** A full magazine goes to the depot and an empty one, if there is one, takes its place. */
  function StoreFull(s: Cache, c: int, memory: bool): Cache
    requires 0 <= c < |s.cpus| && s.cpus[c].loaded.Some?
  {
    WithCpu(s, c, s.cpus[c].(loaded := if s.spares > 0 || memory then Some([]) else None))
    .(depot := [s.cpus[c].loaded.value] + s.depot, spares := if s.spares > 0 then s.spares - 1 else s.spares)
  }

  lemma StoreKeeps(p: Shape, s: Cache, c: int, memory: bool)
    requires Inv(p, s) && 0 <= c < |s.cpus| && s.cpus[c].loaded.Some? && |s.cpus[c].loaded.value| == p.capacity
    ensures Inv(p, StoreFull(s, c, memory))
  {
    var s', m := StoreFull(s, c, memory), s.cpus[c].loaded.value;
    assert ([m] + s.depot)[1..] == s.depot;
    forall o ensures OutKept(s, s', o) { CpusUpdate(s.cpus, c, s'.cpus[c], o); }
    SameOut(p, s, s');
  }

  // ---- Slabs ---------------------------------------------------------------------------------

  function Ascending(n: int): seq<int> { if n <= 0 then [] else Ascending(n - 1) + [n - 1] }

  function Descending(n: int): seq<int> { if n <= 0 then [] else [n - 1] + Descending(n - 1) }

  /** The free list of a new slab: threaded through the objects it comes out backwards. */
  function FreshList(p: Shape): seq<int> { if p.ctor then Ascending(p.total) else Descending(p.total) }

  /** A new slab gives out its objects from the first on if there are constructors, else from the last on. */
  lemma FreshAt(p: Shape, i: int)
    requires 0 <= i < p.total
    ensures |FreshList(p)| == p.total && FreshList(p)[i] == if p.ctor then i else p.total - 1 - i
  {
    if p.ctor { AscendingAt(p.total, i); } else { DescendingAt(p.total, i); }
  }

  lemma {:induction false} AscendingAt(n: int, i: int)
    requires 0 <= i < n
    ensures |Ascending(n)| == n && Ascending(n)[i] == i
    decreases n
  {
    if n > 1 { AscendingAt(n - 1, if i < n - 1 then i else 0); }
  }

  lemma {:induction false} DescendingAt(n: int, i: int)
    requires 0 <= i < n
    ensures |Descending(n)| == n && Descending(n)[i] == n - 1 - i
    decreases n
  {
    if n > 1 { DescendingAt(n - 1, if i > 0 then i - 1 else 0); }
  }

  lemma {:induction false} AscendingTimes(n: int, i: int)
    requires n >= 0
    ensures |Ascending(n)| == n && Times(Ascending(n), i) == if 0 <= i < n then 1 else 0
    decreases n
  {
    if n > 0 {
      AscendingTimes(n - 1, i);
      TimesAppend(Ascending(n - 1), n - 1, i);
    }
  }

  lemma {:induction false} DescendingTimes(n: int, i: int)
    requires n >= 0
    ensures |Descending(n)| == n && Times(Descending(n), i) == if 0 <= i < n then 1 else 0
    decreases n
  {
    if n > 0 {
      DescendingTimes(n - 1, i);
      TimesPush(n - 1, Descending(n - 1), i);
    }
  }

  /** How many entries of a list are below n. */
  function Below(q: seq<int>, n: int): int { if n <= 0 then 0 else Below(q, n - 1) + Times(q, n - 1) }

  lemma {:induction false} BelowPush(y: int, q: seq<int>, n: int)
    requires n >= 0
    ensures Below([y] + q, n) == Below(q, n) + if 0 <= y < n then 1 else 0
    decreases n
  {
    if n > 0 {
      BelowPush(y, q, n - 1);
      TimesPush(y, q, n - 1);
    }
  }

  lemma {:induction false} BelowAll(q: seq<int>, n: int)
    requires n >= 0 && forall x :: x < 0 || x >= n ==> Times(q, x) == 0
    ensures Below(q, n) == |q|
    decreases |q|
  {
    if q == [] {
      BelowNothing(n);
    } else {
      var y, r := q[0], q[1..];
      assert q == [y] + r && Times(q, y) > 0;
      forall x | x < 0 || x >= n ensures Times(r, x) == 0 { TimesPush(y, r, x); }
      BelowAll(r, n);
      BelowPush(y, r, n);
    }
  }

  lemma {:induction false} BelowNothing(n: int)
    requires n >= 0
    ensures Below([], n) == 0
    decreases n
  {
    if n > 0 { BelowNothing(n - 1); }
  }

  lemma {:induction false} BelowOnce(q: seq<int>, n: int, i: int)
    requires 0 <= i < n && forall x :: 0 <= x < n ==> Times(q, x) <= 1
    ensures Below(q, n) <= n && (Below(q, n) == n ==> Times(q, i) == 1)
    decreases n
  {
    if n > 1 { BelowOnce(q, n - 1, if i < n - 1 then i else 0); }
  }

  /** A slab none of whose objects is out has them all on its free list. */
  lemma AllFree(p: Shape, s: Cache, x: int, i: int)
    requires ShapeOk(p) && ObjsOk(p, s) && x in s.slabs && |s.slabs[x].free| == p.total && 0 <= i < p.total
    requires forall o {:trigger Out(s, o)} :: Out(s, o) >= 0
    ensures Times(s.slabs[x].free, i) == 1
  {
    var q := s.slabs[x].free;
    forall j ensures Times(q, j) <= 1 && (j < 0 || j >= p.total ==> Times(q, j) == 0) {
      assert ObjOk(p, s, Obj(x, j)) && Out(s, Obj(x, j)) >= 0;
    }
    BelowAll(q, p.total);
    BelowOnce(q, p.total, i);
  }

  lemma {:induction false} CpusPositive(cpus: seq<Cpu>, o: Obj)
    ensures InCpus(cpus, o) >= 0
    decreases |cpus|
  {
    if cpus != [] { CpusPositive(cpus[1..], o); }
  }

  lemma {:induction false} DepotPositive(depot: seq<Magazine>, o: Obj)
    ensures InDepot(depot, o) >= 0
    decreases |depot|
  {
    if depot != [] { DepotPositive(depot[1..], o); }
  }

  lemma OutPositive(s: Cache, o: Obj)
    ensures Out(s, o) >= s.live[o]
  {
    CpusPositive(s.cpus, o);
    DepotPositive(s.depot, o);
  }

  /** Slab x stands on the partial list with an object to give. */
  ghost predicate Ready(p: Shape, s: Cache, x: int) {
    && ShapeOk(p) && ObjsOk(p, s) && MagsOk(p, s) && s.emptyCount == |s.empty| <= 4
    && x in s.slabs && Counted(p, s, x) && s.slabs[x].inuse < p.total
    && Times(s.partial, x) == 1 && Times(s.full, x) == 0 && Times(s.empty, x) == 0
    && forall y {:trigger SlabOk(p, s, y)} :: y != x ==> SlabOk(p, s, y)
  }

  /** The slab to allocate from: a partial one, an empty one, or a new one on a page. */
  function Pick(p: Shape, s: Cache, page: Option<int>): (Cache, Option<int>) {
    if s.partial != [] then (s, Some(s.partial[0]))
    else if s.empty != [] then
      var x := s.empty[0];
      (s.(empty := Without(s.empty, x), emptyCount := s.emptyCount - 1, partial := [x] + s.partial), Some(x))
    else if page.Some? then
      var x := page.value;
      (s.(slabs := s.slabs[x := Slab(0, FreshList(p))], partial := [x] + s.partial), Some(x))
    else (s, None)
  }

  lemma PickReady(p: Shape, s: Cache, page: Option<int>)
    requires Inv(p, s) && (page.Some? ==> page.value !in s.slabs)
    ensures var r := Pick(p, s, page);
      && (r.1.None? ==> r.0 == s && page.None? && s.partial == [] && s.empty == [])
      && (r.1.Some? && p.total > 0 ==> Ready(p, r.0, r.1.value))
      && (r.1.Some? && p.total == 0 ==> Inv(p, r.0) && r.1.value in r.0.slabs && r.0.slabs[r.1.value].free == [])
  {
    var r := Pick(p, s, page);
    if p.total == 0 {
      PickNothing(p, s, page);
    } else if r.1.Some? {
      var x := r.1.value;
      assert SlabOk(p, s, x);
      if s.partial == [] && s.empty == [] {
        NewSlab(p, s, x);
      } else {
        forall o ensures ObjOk(p, r.0, o) { assert ObjOk(p, s, o); }
        forall y | y != x ensures SlabOk(p, r.0, y) {
          assert SlabOk(p, s, y);
          TimesWithout(s.empty, x, y);
          TimesPush(x, s.partial, y);
        }
        TimesWithout(s.empty, x, x);
        TimesPush(x, s.partial, x);
      }
    }
  }

  lemma Nowhere(q: seq<int>)
    requires forall y :: Times(q, y) == 0
    ensures q == []
  {
    var y := if q == [] then 0 else q[0];
    assert Times(q, y) == 0;
  }

  // A cache without objects: its slab comes from the partial list or is a new one.
  lemma PickNothing(p: Shape, s: Cache, page: Option<int>)
    requires Inv(p, s) && (page.Some? ==> page.value !in s.slabs) && p.total == 0
    ensures var r := Pick(p, s, page); r.1.Some? ==> Inv(p, r.0) && r.1.value in r.0.slabs && r.0.slabs[r.1.value].free == []
  {
    var r := Pick(p, s, page);
    if s.partial != [] {
      assert SlabOk(p, s, s.partial[0]);
    } else {
      forall y ensures Times(s.empty, y) == 0 { assert SlabOk(p, s, y); }
      Nowhere(s.empty);
      if page.Some? {
        var x := page.value;
        assert SlabOk(p, s, x);
        forall o ensures ObjOk(p, r.0, o) { assert ObjOk(p, s, o); }
        forall y ensures SlabOk(p, r.0, y) {
          assert SlabOk(p, s, y);
          TimesPush(x, s.partial, y);
        }
      }
    }
  }

  /** The plain rule: no object out, on the empty list; all out, on the full one; on the partial list otherwise. */
  ghost predicate PlainRule(p: Shape, s: Cache, x: int)
    requires x in s.slabs
  {
    var n := s.slabs[x].inuse;
    && (Times(s.empty, x) == 1 <==> n == 0)
    && (Times(s.full, x) == 1 <==> n == p.total)
    && (Times(s.partial, x) == 1 <==> 0 < n < p.total)
  }

  /** A slab obeys the plain rule if and only if its cache has objects at all. */
  lemma PlainRuleIff(p: Shape, s: Cache, x: int)
    requires Inv(p, s) && x in s.slabs
    ensures PlainRule(p, s, x) <==> p.total > 0
  {
    assert SlabOk(p, s, x);
  }

  lemma NewSlab(p: Shape, s: Cache, x: int)
    requires Inv(p, s) && x !in s.slabs && p.total > 0
    ensures Ready(p, s.(slabs := s.slabs[x := Slab(0, FreshList(p))], partial := [x] + s.partial), x)
  {
    var s' := s.(slabs := s.slabs[x := Slab(0, FreshList(p))], partial := [x] + s.partial);
    assert SlabOk(p, s, x);
    TimesPush(x, s.partial, x);
    AscendingTimes(p.total, 0);
    DescendingTimes(p.total, 0);
    forall o ensures ObjOk(p, s', o) {
      assert ObjOk(p, s, o);
      AscendingTimes(p.total, o.idx);
      DescendingTimes(p.total, o.idx);
    }
    forall y | y != x ensures SlabOk(p, s', y) {
      assert SlabOk(p, s, y);
      TimesPush(x, s.partial, y);
    }
  }

  /** An object leaves its slab for a caller. */
  function Take(p: Shape, s: Cache, x: int): Cache
    requires x in s.slabs && s.slabs[x].free != []
  {
    var n := Slab(s.slabs[x].inuse + 1, s.slabs[x].free[1..]);
    var s' := s.(slabs := s.slabs[x := n], live := s.live + multiset{Obj(x, s.slabs[x].free[0])});
    if n.inuse == p.total then s'.(partial := Without(s.partial, x), full := [x] + s.full) else s'
  }

  lemma TakeKeeps(p: Shape, s: Cache, x: int)
    requires Ready(p, s, x)
    ensures s.slabs[x].free != [] && Inv(p, Take(p, s, x))
  {
    var s', q := Take(p, s, x), s.slabs[x].free;
    assert q == [q[0]] + q[1..];
    forall o ensures ObjOk(p, s', o) {
      assert ObjOk(p, s, o);
      TimesPush(q[0], q[1..], o.idx);
    }
    forall y ensures SlabOk(p, s', y) {
      if y != x { assert SlabOk(p, s, y); }
      TimesWithout(s.partial, x, y);
      TimesPush(x, s.full, y);
    }
  }

  /** An object a caller gives back to its slab, which is not full any more. */
  function Return(p: Shape, s: Cache, o: Obj): Cache
    requires o.slab in s.slabs
  {
    var x, was := o.slab, s.slabs[o.slab];
    var s' := s.(slabs := s.slabs[x := Slab(was.inuse - 1, [o.idx] + was.free)], live := s.live - multiset{o});
    if was.inuse == p.total then s'.(full := Without(s'.full, x), partial := [x] + s'.partial) else s'
  }

  /** A slab without objects out is kept aside, or given up when enough are kept. */
  function Settle(s: Cache, x: int): Cache
    requires x in s.slabs
  {
    if s.slabs[x].inuse != 0 then s
    else if s.emptyCount >= KEPT_EMPTY then s.(partial := Without(s.partial, x), slabs := s.slabs - {x})
    else s.(partial := Without(s.partial, x), empty := [x] + s.empty, emptyCount := s.emptyCount + 1)
  }

  lemma LiveExists(p: Shape, s: Cache, o: Obj)
    requires Inv(p, s) && o in s.live
    ensures Exists(p, s, o) && FreeCount(s, o) == 0 && s.live[o] == 1 && s.slabs[o.slab].inuse > 0
  {
    assert ObjOk(p, s, o) && SlabOk(p, s, o.slab);
    OutPositive(s, o);
    if o.slab in s.slabs && |s.slabs[o.slab].free| == p.total && 0 <= o.idx < p.total {
      forall b {:trigger Out(s, b)} ensures Out(s, b) >= 0 { OutPositive(s, b); }
      AllFree(p, s, o.slab, o.idx);
    }
  }

  lemma ReturnReady(p: Shape, s: Cache, x: Obj)
    requires Inv(p, s) && x in s.live
    ensures x.slab in s.slabs && Ready(p, Return(p, s, x), x.slab)
  {
    LiveExists(p, s, x);
    var s', z, q := Return(p, s, x), x.slab, s.slabs[x.slab].free;
    assert SlabOk(p, s, z);
    forall o ensures ObjOk(p, s', o) {
      assert ObjOk(p, s, o);
      TimesPush(x.idx, q, o.idx);
    }
    TimesWithout(s.full, z, z);
    TimesPush(z, s.partial, z);
    forall y | y != z ensures SlabOk(p, s', y) {
      assert SlabOk(p, s, y);
      TimesWithout(s.full, z, y);
      TimesPush(z, s.partial, y);
    }
  }

  /** No object of a slab without objects out is anywhere else. */
  lemma NoneOut(p: Shape, s: Cache, x: int, i: int)
    requires ShapeOk(p) && ObjsOk(p, s) && x in s.slabs && |s.slabs[x].free| == p.total
    ensures Out(s, Obj(x, i)) == 0
  {
    forall b {:trigger Out(s, b)} ensures Out(s, b) >= 0 { OutPositive(s, b); }
    assert ObjOk(p, s, Obj(x, i));
    if 0 <= i < p.total { AllFree(p, s, x, i); }
  }

  lemma SettleKeeps(p: Shape, s: Cache, x: int)
    requires Ready(p, s, x)
    ensures Inv(p, Settle(s, x))
  {
    var s' := Settle(s, x);
    forall o ensures ObjOk(p, s', o) {
      assert ObjOk(p, s, o);
      if o.slab == x && x !in s'.slabs { NoneOut(p, s, x, o.idx); }
    }
    forall y ensures SlabOk(p, s', y) {
      if y != x { assert SlabOk(p, s, y); }
      TimesWithout(s.partial, x, y);
      TimesPush(x, s.empty, y);
    }
  }

  // ---- What the counts mean ------------------------------------------------------------------

  /** The objects of a slab that are out: in magazines or with callers. */
  function OutOf(s: Cache, x: int, n: int): int { if n <= 0 then 0 else OutOf(s, x, n - 1) + Out(s, Obj(x, n - 1)) }

  lemma {:induction false} OutOrFree(p: Shape, s: Cache, x: int, n: int)
    requires ObjsOk(p, s) && x in s.slabs && 0 <= n <= p.total
    ensures OutOf(s, x, n) + Below(s.slabs[x].free, n) == n
    decreases n
  {
    if n > 0 {
      OutOrFree(p, s, x, n - 1);
      assert ObjOk(p, s, Obj(x, n - 1));
    }
  }

  /** A slab's count is the number of its objects in magazines and with callers. */
  lemma InuseIsOut(p: Shape, s: Cache, x: int)
    requires Inv(p, s) && x in s.slabs
    ensures s.slabs[x].inuse == OutOf(s, x, p.total)
  {
    var q := s.slabs[x].free;
    assert SlabOk(p, s, x);
    forall j ensures j < 0 || j >= p.total ==> Times(q, j) == 0 {
      assert ObjOk(p, s, Obj(x, j));
      OutPositive(s, Obj(x, j));
    }
    BelowAll(q, p.total);
    OutOrFree(p, s, x, p.total);
  }

  /** No object is in two hands: a live object is in no magazine, on no free list and with no second caller. */
  lemma LiveAlone(p: Shape, s: Cache, o: Obj)
    requires Inv(p, s) && o in s.live
    ensures s.live[o] == 1 && InCpus(s.cpus, o) == 0 && InDepot(s.depot, o) == 0 && FreeCount(s, o) == 0
  {
    LiveExists(p, s, o);
    assert ObjOk(p, s, o);
    CpusPositive(s.cpus, o);
    DepotPositive(s.depot, o);
  }

  ghost predicate Busy(s: Cache, x: int)
    requires x in s.slabs
  {
    s.slabs[x].inuse > 0
  }

  /** A magazine of the depot in the hands of the reaper. */
  function Open(s: Cache): Cache
    requires s.depot != []
  {
    s.(depot := s.depot[1..], live := s.live + multiset(s.depot[0]))
  }

  lemma {:induction false} TimesMultiset(q: seq<Obj>, o: Obj)
    ensures multiset(q)[o] == Times(q, o)
    decreases |q|
  {
    if q != [] {
      TimesMultiset(q[1..], o);
      assert q == [q[0]] + q[1..];
    }
  }

  lemma PeelBag(base: multiset<Obj>, m: seq<Obj>, i: int)
    requires 0 <= i < |m|
    ensures m[i] in base + multiset(m[i..]) && base + multiset(m[i..]) - multiset{m[i]} == base + multiset(m[i + 1..])
  {
    assert m[i..] == [m[i]] + m[i + 1..];
    assert multiset(m[i..]) == multiset{m[i]} + multiset(m[i + 1..]);
  }

  lemma OpenKeeps(p: Shape, s: Cache)
    requires Inv(p, s) && s.depot != []
    ensures Inv(p, Open(s))
  {
    var s' := Open(s);
    forall o ensures OutKept(s, s', o) { TimesMultiset(s.depot[0], o); }
    SameOut(p, s, s');
  }

  /** The first empty slab is given up. */
  function Drop(s: Cache): Cache
    requires s.empty != []
  {
    s.(empty := Without(s.empty, s.empty[0]), emptyCount := s.emptyCount - 1, slabs := s.slabs - {s.empty[0]})
  }

  lemma DropKeeps(p: Shape, s: Cache)
    requires Inv(p, s) && s.empty != []
    ensures Inv(p, Drop(s)) && s.empty[0] in s.slabs && |Drop(s).empty| < |s.empty|
  {
    var s', x := Drop(s), s.empty[0];
    assert SlabOk(p, s, x);
    TimesWithout(s.empty, x, x);
    forall o ensures ObjOk(p, s', o) {
      assert ObjOk(p, s, o);
      if o.slab == x { NoneOut(p, s, x, o.idx); }
    }
    forall y ensures SlabOk(p, s', y) {
      assert SlabOk(p, s, y);
      TimesWithout(s.empty, x, y);
    }
  }

  function EmptyCpus(mags: seq<(bool, bool)>): seq<Cpu> {
    seq(|mags|, i requires 0 <= i < |mags| => Cpu(if mags[i].0 then Some([]) else None, if mags[i].1 then Some([]) else None))
  }

  lemma {:induction false} EmptyCpusHold(mags: seq<(bool, bool)>, o: Obj)
    ensures InCpus(EmptyCpus(mags), o) == 0
    decreases |mags|
  {
    if mags != [] {
      EmptyCpusHold(mags[1..], o);
      assert EmptyCpus(mags)[1..] == EmptyCpus(mags[1..]);
    }
  }

  lemma EmptyCpusSmall(p: Shape, mags: seq<(bool, bool)>)
    requires ShapeOk(p)
    ensures forall c :: 0 <= c < |mags| ==> Small(p, EmptyCpus(mags)[c].loaded) && Small(p, EmptyCpus(mags)[c].previous)
  {
  }

  lemma {:induction false} LastIsOut(s: Cache, c: int)
    requires 0 <= c < |s.cpus| && s.cpus[c].loaded.Some? && s.cpus[c].loaded.value != []
    ensures var m := s.cpus[c].loaded.value; Out(s, m[|m| - 1]) >= 1 + s.live[m[|m| - 1]]
  {
    var m := s.cpus[c].loaded.value;
    var o := m[|m| - 1];
    var rest := m[..|m| - 1];
    assert m == rest + [o];
    TimesAppend(rest, o, o);
    CpusUpdate(s.cpus, c, Cpu(None, None), o);
    CpusPositive(s.cpus[c := Cpu(None, None)], o);
    DepotPositive(s.depot, o);
  }

  lemma StoredIsOut(s: Cache)
    requires s.depot != [] && s.depot[0] != []
    ensures Out(s, s.depot[0][0]) >= 1
  {
    var o := s.depot[0][0];
    assert Times(s.depot[0], o) >= 1;
    CpusPositive(s.cpus, o);
    DepotPositive(s.depot[1..], o);
  }

  // The magazines of a cache without objects are empty.
  lemma NothingStored(p: Shape, s: Cache, c: int)
    requires Inv(p, s) && p.total == 0 && 0 <= c < |s.cpus|
    ensures s.cpus[c].loaded.Some? ==> s.cpus[c].loaded.value == []
    ensures s.cpus[c].previous.Some? ==> s.cpus[c].previous.value == []
    ensures s.depot == []
  {
    forall o ensures Out(s, o) == 0 {
      assert ObjOk(p, s, o);
      OutPositive(s, o);
    }
    if s.cpus[c].loaded.Some? && s.cpus[c].loaded.value != [] { LastIsOut(s, c); }
    if s.cpus[c].previous.Some? && s.cpus[c].previous.value != [] {
      SwapKeeps(p, s, c);
      var s' := Swap(s, c);
      LastIsOut(s', c);
      var m := s'.cpus[c].loaded.value;
      assert ObjOk(p, s', m[|m| - 1]);
    }
    if s.depot != [] { StoredIsOut(s); }
  }

  /** An index picks one of the objects held so far. */
  datatype Request = AllocOn(cpu: nat, page: Option<int>) | FreeOn(cpu: nat, index: nat, memory: bool) | ReapAll

  /** What callers hold, they hold once. */
  lemma HeldOnce(p: Shape, s: Cache, held: seq<Obj>)
    requires Inv(p, s) && s.live == multiset(held)
    ensures NoDup(held)
  {
    forall i, j | 0 <= i < j < |held| ensures held[i] != held[j] {
      var o := held[i];
      LiveAlone(p, s, o);
      assert held == held[..j] + [held[j]] + held[j + 1..];
      assert o in held[..j];
    }
  }

  /** There is an object in a magazine, or room for one. */
  predicate Stocked(m: Option<Magazine>) { m.Some? && m.value != [] }
  predicate Roomy(p: Shape, m: Option<Magazine>) { m.Some? && |m.value| < p.capacity }

  function Top(m: Magazine): Obj
    requires m != []
  {
    m[|m| - 1]
  }

  function Rest(m: Magazine): Magazine
    requires m != []
  {
    m[..|m| - 1]
  }

  /** Where an allocation takes its object from: the loaded magazine, the other one, a full one of the depot, or a slab. */
  ghost predicate Taken(s: Cache, s': Cache, c: int, o: Option<Obj>)
    requires 0 <= c < |s.cpus|
  {
    var (m, w) := (s.cpus[c].loaded, s.cpus[c].previous);
    if Stocked(m) then
      o == Some(Top(m.value)) && s' == s.(cpus := s.cpus[c := Cpu(Some(Rest(m.value)), w)], live := s.live + multiset{Top(m.value)})
    else if Stocked(w) then
      o == Some(Top(w.value)) && s' == s.(cpus := s.cpus[c := Cpu(Some(Rest(w.value)), m)], live := s.live + multiset{Top(w.value)})
    else if s.depot != [] && s.depot[0] != [] then
      var f := s.depot[0];
      o == Some(Top(f)) && s' == s.(cpus := s.cpus[c := Cpu(Some(Rest(f)), w)], depot := s.depot[1..],
                                    spares := s.spares + (if m.Some? then 1 else 0), live := s.live + multiset{Top(f)})
    else s'.cpus == s.cpus && s'.depot == s.depot && s'.spares == s.spares
  }

  /** The slab an object comes from: the first partial one, the first empty one, or a new one; and which object. */
  ghost predicate FromSlab(p: Shape, s: Cache, s': Cache, page: Option<int>, o: Obj) {
    var x := if s.partial != [] then s.partial[0] else if s.empty != [] then s.empty[0] else if page.Some? then page.value else o.slab;
    var was := if x in s.slabs then s.slabs[x] else Slab(0, FreshList(p));
    was.free != [] && o == Obj(x, was.free[0]) && s'.slabs == s.slabs[x := Slab(was.inuse + 1, was.free[1..])]
  }

  /** An object goes back to the front of its slab's list; the fifth slab without objects out is given up. */
  ghost predicate ToSlab(s: Cache, s': Cache, o: Obj) {
    o.slab in s.slabs
    && var was := s.slabs[o.slab];
       s'.slabs == if was.inuse == 1 && s.emptyCount >= 4 then s.slabs - {o.slab} else s.slabs[o.slab := Slab(was.inuse - 1, [o.idx] + was.free)]
  }

  /** Where a freed object goes: the loaded magazine, the other one, a fresh one while the full one goes to the depot, or
      its slab. */
  ghost predicate Given(p: Shape, s: Cache, s': Cache, c: int, o: Obj, memory: bool)
    requires 0 <= c < |s.cpus|
  {
    var (m, w) := (s.cpus[c].loaded, s.cpus[c].previous);
    if Roomy(p, m) then
      s' == s.(cpus := s.cpus[c := Cpu(Some(m.value + [o]), w)], live := s.live - multiset{o})
    else if Roomy(p, w) then
      s' == s.(cpus := s.cpus[c := Cpu(Some(w.value + [o]), m)], live := s.live - multiset{o})
    else if m.Some? && (s.spares > 0 || memory) then
      s' == s.(cpus := s.cpus[c := Cpu(Some([o]), w)], depot := [m.value] + s.depot,
               spares := (if s.spares > 0 then s.spares - 1 else 0), live := s.live - multiset{o})
    else
      && s'.cpus == s.cpus[c := Cpu(None, w)] && s'.depot == (if m.Some? then [m.value] + s.depot else s.depot)
      && s'.spares == s.spares && ToSlab(s, s', o)
  }

  /** What a request makes of the objects held. */
  ghost predicate Served(p: Shape, s: Cache, r: Request, held: seq<Obj>, held': seq<Obj>) {
    match r
    case AllocOn(cpu, page) =>
      || (p.total > 0 && exists o :: held' == held + [o])
      || (held' == held && (p.total > 0 ==> Exhausted(s, if cpu < |s.cpus| then cpu else 0, page)))
    case FreeOn(_, k, _) => held' == if k < |held| then held[..k] + held[k + 1..] else held
    case ReapAll => held' == held
  }

  /** A processor finds no object anywhere, and no page to make any on. */
  ghost predicate Exhausted(s: Cache, c: int, page: Option<int>) {
    && 0 <= c < |s.cpus| && !Stocked(s.cpus[c].loaded) && !Stocked(s.cpus[c].previous) && s.depot == []
    && s.partial == [] && s.empty == [] && (page.None? || page.value in s.slabs)
  }

  ghost predicate ServedAll(p: Shape, requests: seq<Request>, trace: seq<(seq<Obj>, Cache)>) {
    |trace| == |requests| + 1
    && forall i {:trigger requests[i]} :: 0 <= i < |requests| ==> Served(p, trace[i].1, requests[i], trace[i].0, trace[i + 1].0)
  }

  // ---- The code ------------------------------------------------------------------------------

  class ObjectCache {
    const shape: Shape
    var slabs: map<int, Slab>
    var partial: seq<int>
    var full: seq<int>
    var empty: seq<int>
    var emptyCount: int
    var cpus: seq<Cpu>
    var depot: seq<Magazine>
    var spares: int
    ghost var live: multiset<Obj>

    ghost function Now(): Cache
      reads this
    {
      Cache(slabs, partial, full, empty, emptyCount, cpus, depot, spares, live)
    }

    ghost predicate Valid()
      reads this
    {
      Inv(shape, Now())
    }

    /** A new cache; a magazine of some processor may be missing for want of memory. */
    constructor (p: Shape, mags: seq<(bool, bool)>)
      requires ShapeOk(p)
      ensures Valid() && shape == p && live == multiset{} && slabs == map[] && depot == [] && spares == 0 && |cpus| == |mags|
      ensures forall c :: 0 <= c < |mags| ==> cpus[c] == Cpu(if mags[c].0 then Some([]) else None, if mags[c].1 then Some([]) else None)
    {
      shape := p;
      slabs, partial, full, empty, emptyCount, depot, spares, live := map[], [], [], [], 0, [], 0, multiset{};
      cpus := EmptyCpus(mags);
      new;
      forall o ensures ObjOk(shape, Now(), o) { EmptyCpusHold(mags, o); }
      EmptyCpusSmall(p, mags);
    }

    /**
     An object from a slab. With a page at hand, the result is an object of a slab if and only if the cache has any. A
     cache without objects gives none; with constructors it takes the first index of an index chain that was never
     written, which is no object.
     */
    method AllocFromLists(page: Option<int>) returns (o: Option<Obj>)
      requires Valid() && (page.Some? ==> page.value !in slabs)
      modifies this
      ensures shape.total > 0 || !shape.ctor ==> Valid()
      ensures cpus == old(cpus) && depot == old(depot) && spares == old(spares)
      ensures o.Some? && shape.total > 0 ==> FromSlab(shape, old(Now()), Now(), page, o.value)
      ensures page.Some? ==> ((o.Some? && Exists(shape, Now(), o.value)) <==> shape.total > 0)
      ensures o.Some? && shape.total > 0 ==> o.value !in old(live) && live == old(live) + multiset{o.value}
      ensures o.None? ==> live == old(live) && (shape.total > 0 || shape.ctor ==> Now() == old(Now()) && page.None? && partial == [] && empty == [])
      ensures shape.total == 0 && !shape.ctor ==> o.None? && depot == old(depot)
    {
      ghost var s := Now();
      PickReady(shape, s, page);
      var x;
      if partial != [] {
        x := partial[0];
      } else if empty != [] {
        x := empty[0];
        empty := Without(empty, x);
        emptyCount := emptyCount - 1;
        partial := [x] + partial;
      } else if page.Some? {
        x := page.value;
        slabs := slabs[x := Slab(0, FreshList(shape))];
        partial := [x] + partial;
      } else {
        return None;
      }
      assert Now() == Pick(shape, s, page).0;
      if slabs[x].free != [] {
        o := TakeFrom(x);
      } else {
        o := if shape.ctor then Some(Obj(x, 0)) else None;
      }
    }

    method TakeFrom(x: int) returns (o: Option<Obj>)
      requires Ready(shape, Now(), x)
      modifies this
      ensures Valid() && cpus == old(cpus) && o.Some? && o.value !in old(live) && live == old(live) + multiset{o.value}
      ensures Exists(shape, Now(), o.value) && depot == old(depot) && spares == old(spares)
      ensures var was := old(slabs)[x]; was.free != [] && o.value == Obj(x, was.free[0]) && slabs == old(slabs)[x := Slab(was.inuse + 1, was.free[1..])]
    {
      ghost var s := Now();
      TakeKeeps(shape, s, x);
      var n := Slab(slabs[x].inuse + 1, slabs[x].free[1..]);
      var obj := Obj(x, slabs[x].free[0]);
      assert ObjOk(shape, s, obj);
      OutPositive(s, obj);
      slabs := slabs[x := n];
      live := live + multiset{obj};
      if n.inuse == shape.total {
        partial := Without(partial, x);
        full := [x] + full;
      }
      assert Now() == Take(shape, s, x);
      o := Some(obj);
    }

    method FreeToLists(o: Obj)
      requires Valid() && o in live
      modifies this
      ensures Valid() && live == old(live) - multiset{o} && cpus == old(cpus) && depot == old(depot) && spares == old(spares)
      ensures ToSlab(old(Now()), Now(), o)
    {
      ghost var s := Now();
      ReturnReady(shape, s, o);
      var x, wasFull := o.slab, slabs[o.slab].inuse == shape.total;
      slabs := slabs[x := Slab(slabs[x].inuse - 1, [o.idx] + slabs[x].free)];
      live := live - multiset{o};
      if wasFull {
        full := Without(full, x);
        partial := [x] + partial;
      }
      assert Now() == Return(shape, s, o);
      Retire(x);
    }

    method Retire(x: int)
      requires Ready(shape, Now(), x)
      modifies this
      ensures Valid() && live == old(live) && cpus == old(cpus) && depot == old(depot) && spares == old(spares)
      ensures slabs == if old(slabs)[x].inuse == 0 && old(emptyCount) >= 4 then old(slabs) - {x} else old(slabs)
    {
      ghost var s := Now();
      SettleKeeps(shape, s, x);
      if slabs[x].inuse == 0 {
        partial := Without(partial, x);
        if emptyCount >= KEPT_EMPTY {
          slabs := slabs - {x};
        } else {
          empty := [x] + empty;
          emptyCount := emptyCount + 1;
        }
      }
      assert Now() == Settle(s, x);
    }

    /** An allocation on a processor: from its magazines, from the depot, or from a slab. The object was free. */
    method Alloc(c: int, page: Option<int>) returns (o: Option<Obj>)
      requires Valid() && 0 <= c < |cpus| && (page.Some? ==> page.value !in slabs)
      modifies this
      ensures shape.total > 0 || !shape.ctor ==> Valid()
      ensures |cpus| == |old(cpus)|
      ensures o.Some? && shape.total > 0 ==> o.value !in old(live) && live == old(live) + multiset{o.value}
      ensures shape.total > 0 ==> Taken(old(Now()), Now(), c, o)
      ensures o.None? && shape.total > 0 ==> Now() == old(Now()) && page.None? && Exhausted(Now(), c, page)
      ensures o.Some? && shape.total > 0 && slabs != old(slabs) ==> FromSlab(shape, old(Now()), Now(), page, o.value)
      ensures shape.total == 0 && !shape.ctor ==> o.None? && live == old(live)
    {
      if shape.total == 0 { NothingStored(shape, Now(), c); }
      o := AllocCached(c);
      if o.None? { o := AllocFromLists(page); }
    }

    /** An object from a magazine, if there is any within reach. */
    method AllocCached(c: int) returns (o: Option<Obj>)
      requires Valid() && 0 <= c < |cpus|
      modifies this
      ensures Valid() && slabs == old(slabs) && Taken(old(Now()), Now(), c, o) && |cpus| == |old(cpus)|
      ensures o.Some? ==> o.value !in old(live) && live == old(live) + multiset{o.value}
      ensures o.None? <==> old(!Stocked(cpus[c].loaded) && !Stocked(cpus[c].previous) && depot == [])
      ensures o.None? ==> Now() == old(Now())
    {
      if cpus[c].loaded.Some? && cpus[c].loaded.value != [] {
        o := PopLoaded(c);
        return;
      }
      if cpus[c].previous.Some? && cpus[c].previous.value != [] {
        Exchange(c);
        o := PopLoaded(c);
        return;
      }
      if depot != [] {
        FetchFull(c);
        o := PopLoaded(c);
        return;
      }
      o := None;
    }

    method Exchange(c: int)
      requires Valid() && 0 <= c < |cpus|
      modifies this`cpus
      ensures Valid() && cpus == old(cpus)[c := Cpu(old(cpus)[c].previous, old(cpus)[c].loaded)]
    {
      ghost var s := Now();
      SwapKeeps(shape, s, c);
      cpus := cpus[c := Cpu(cpus[c].previous, cpus[c].loaded)];
      assert Now() == Swap(s, c);
    }

    /** A full magazine comes from the depot, and the empty one goes there. */
    method FetchFull(c: int)
      requires Valid() && 0 <= c < |cpus| && depot != [] && !Stocked(cpus[c].loaded)
      modifies this`cpus, this`depot, this`spares
      ensures Valid() && old(depot)[0] != [] && cpus == old(cpus)[c := Cpu(Some(old(depot)[0]), old(cpus)[c].previous)]
      ensures depot == old(depot)[1..] && spares == old(spares) + if old(cpus)[c].loaded.Some? then 1 else 0
    {
      ghost var s := Now();
      LoadKeeps(shape, s, c);
      if cpus[c].loaded.Some? { spares := spares + 1; }
      cpus := cpus[c := cpus[c].(loaded := Some(depot[0]))];
      depot := depot[1..];
      assert Now() == LoadFull(s, c);
    }

    /** The full magazine goes to the depot, and an empty one takes its place if there is one. */
    method DepositFull(c: int, memory: bool)
      requires Valid() && 0 <= c < |cpus| && cpus[c].loaded.Some? && |cpus[c].loaded.value| == shape.capacity
      modifies this`cpus, this`depot, this`spares
      ensures Valid() && cpus == old(cpus)[c := Cpu(if old(spares) > 0 || memory then Some([]) else None, old(cpus)[c].previous)]
      ensures depot == [old(cpus)[c].loaded.value] + old(depot) && spares == if old(spares) > 0 then old(spares) - 1 else 0
    {
      ghost var s := Now();
      StoreKeeps(shape, s, c, memory);
      depot := [cpus[c].loaded.value] + depot;
      cpus := cpus[c := cpus[c].(loaded := if spares > 0 || memory then Some([]) else None)];
      if spares > 0 { spares := spares - 1; }
      assert Now() == StoreFull(s, c, memory);
    }

    method PopLoaded(c: int) returns (o: Option<Obj>)
      requires Valid() && 0 <= c < |cpus| && cpus[c].loaded.Some? && cpus[c].loaded.value != []
      modifies this
      ensures Valid() && |cpus| == |old(cpus)| && o.Some? && o.value !in old(live) && live == old(live) + multiset{o.value}
      ensures var m := old(cpus)[c].loaded.value;
              o.value == Top(m) && Now() == old(Now()).(cpus := old(cpus)[c := Cpu(Some(Rest(m)), old(cpus)[c].previous)], live := old(live) + multiset{Top(m)})
    {
      ghost var s := Now();
      PopKeeps(shape, s, c);
      var m := cpus[c].loaded.value;
      o := Some(m[|m| - 1]);
      LastIsOut(s, c);
      assert ObjOk(shape, s, m[|m| - 1]);
      cpus := cpus[c := cpus[c].(loaded := Some(m[..|m| - 1]))];
      live := live + multiset{m[|m| - 1]};
      assert Now() == Pop(s, c);
    }

    /** A free on a processor: into its magazines, or to the slab when no magazine has room. */
    method Free(c: int, o: Obj, memory: bool)
      requires Valid() && 0 <= c < |cpus| && o in live
      modifies this
      ensures Valid() && |cpus| == |old(cpus)| && live == old(live) - multiset{o}
      ensures Given(shape, old(Now()), Now(), c, o, memory)
    {
      ghost var s := Now();
      if cpus[c].loaded.Some? && |cpus[c].loaded.value| < shape.capacity {
        PushLoaded(c, o);
        return;
      }
      if cpus[c].previous.Some? && |cpus[c].previous.value| < shape.capacity {
        Exchange(c);
        PushLoaded(c, o);
        return;
      }
      if cpus[c].loaded.Some? && |cpus[c].loaded.value| >= shape.capacity {
        DepositFull(c, memory);
        if cpus[c].loaded.Some? {
          PushLoaded(c, o);
          assert [] + [o] == [o] && cpus == s.cpus[c := Cpu(Some([o]), s.cpus[c].previous)];
          return;
        }
      }
      FreeToLists(o);
    }

    method PushLoaded(c: int, o: Obj)
      requires Valid() && 0 <= c < |cpus| && cpus[c].loaded.Some? && |cpus[c].loaded.value| < shape.capacity && o in live
      modifies this
      ensures Valid() && |cpus| == |old(cpus)| && live == old(live) - multiset{o}
      ensures Now() == old(Now()).(cpus := old(cpus)[c := Cpu(Some(old(cpus)[c].loaded.value + [o]), old(cpus)[c].previous)], live := old(live) - multiset{o})
    {
      ghost var s := Now();
      PushKeeps(shape, s, c, o);
      cpus := cpus[c := cpus[c].(loaded := Some(cpus[c].loaded.value + [o]))];
      live := live - multiset{o};
      assert Now() == PushObj(s, c, o);
    }

    /** One magazine of the depot goes back to the slabs, object by object. */
    method ReapMagazine()
      requires Valid() && depot != []
      modifies this
      ensures Valid() && live == old(live) && cpus == old(cpus) && depot == old(depot)[1..] && spares == old(spares) + 1
    {
      var m := depot[0];
      OpenKeeps(shape, Now());
      assert m[0..] == m;
      depot := depot[1..];
      live := live + multiset(m);
      assert Now() == Open(old(Now()));
      for i := 0 to |m|
        invariant Valid() && cpus == old(cpus) && depot == old(depot)[1..] && spares == old(spares) && live == old(live) + multiset(m[i..])
      {
        PeelBag(old(live), m, i);
        FreeToLists(m[i]);
      }
      assert m[|m|..] == [];
      ghost var s := Now();
      spares := spares + 1;
      forall o ensures OutKept(s, Now(), o) { }
      SameOut(shape, s, Now());
    }

    /** Gives the depot's magazines back to the slabs and all empty slabs back to the system. */
    method Reap() returns (pages: int)
      requires Valid()
      modifies this
      ensures Valid() && live == old(live) && cpus == old(cpus) && depot == [] && empty == [] && emptyCount == 0
      ensures spares == old(spares) + |old(depot)| && 0 <= pages <= 4 && (old(depot) == [] ==> pages == |old(empty)|)
      ensures shape.total > 0 ==> forall x :: x in slabs ==> Busy(Now(), x)
    {
      while depot != []
        invariant Valid() && live == old(live) && cpus == old(cpus) && spares + |depot| == old(spares) + |old(depot)|
        invariant |depot| <= |old(depot)| && (|depot| == |old(depot)| ==> empty == old(empty))
        decreases |depot|
      {
        ReapMagazine();
      }
      pages := DropEmpty();
    }

    method DropEmpty() returns (pages: int)
      requires Valid()
      modifies this
      ensures Valid() && live == old(live) && cpus == old(cpus) && depot == old(depot) && spares == old(spares) && empty == [] && emptyCount == 0
      ensures pages == |old(empty)| && (shape.total > 0 ==> forall x :: x in slabs ==> Busy(Now(), x))
    {
      pages := 0;
      while empty != []
        invariant Valid() && live == old(live) && cpus == old(cpus) && depot == old(depot) && spares == old(spares) && pages + |empty| == |old(empty)|
        decreases |empty|
      {
        ghost var s := Now();
        var x := empty[0];
        DropKeeps(shape, s);
        empty := Without(empty, x);
        emptyCount := emptyCount - 1;
        slabs := slabs - {x};
        assert Now() == Drop(s);
        pages := pages + 1;
      }
      if shape.total > 0 { forall x | x in slabs ensures Busy(Now(), x) { assert SlabOk(shape, Now(), x); } }
    }

    ghost predicate Serving(held: seq<Obj>)
      reads this
    {
      Valid() && live == multiset(held)
    }

    method ServeAlloc(cpu: nat, page: Option<int>, held: seq<Obj>) returns (held': seq<Obj>)
      requires Serving(held) && cpus != [] && (shape.total > 0 || !shape.ctor)
      modifies this
      ensures Serving(held') && cpus != [] && Served(shape, old(Now()), AllocOn(cpu, page), held, held')
    {
      held' := held;
      var o := Alloc(if cpu < |cpus| then cpu else 0, if page.Some? && page.value in slabs then None else page);
      if o.Some? { held' := held + [o.value]; }
    }

    method ServeFree(cpu: nat, k: nat, memory: bool, held: seq<Obj>) returns (held': seq<Obj>)
      requires Serving(held) && cpus != [] && k < |held|
      modifies this
      ensures Serving(held') && cpus != [] && held' == held[..k] + held[k + 1..]
    {
      held' := held[..k] + held[k + 1..];
      assert held == held[..k] + [held[k]] + held[k + 1..];
      Free(if cpu < |cpus| then cpu else 0, held[k], memory);
    }

    method ServeOne(r: Request, held: seq<Obj>) returns (held': seq<Obj>)
      requires Serving(held) && cpus != [] && (shape.total > 0 || !shape.ctor)
      modifies this
      ensures Serving(held') && cpus != [] && Served(shape, old(Now()), r, held, held')
    {
      held' := held;
      match r
      case AllocOn(cpu, page) => held' := ServeAlloc(cpu, page, held);
      case FreeOn(cpu, k, memory) => if k < |held| { held' := ServeFree(cpu, k, memory, held); }
      case ReapAll => var _ := Reap();
    }

    /** Any run of allocations, frees and reaps on any processors. A page that is in use counts as no page. */
    method Serve(requests: seq<Request>) returns (held: seq<Obj>, ghost trace: seq<(seq<Obj>, Cache)>)
      requires Serving([]) && cpus != [] && (shape.total > 0 || !shape.ctor)
      modifies this
      ensures Serving(held) && (shape.total == 0 ==> held == [])
      ensures ServedAll(shape, requests, trace) && trace[0] == ([], old(Now())) && trace[|requests|] == (held, Now())
    {
      held, trace := [], [([], Now())];
      for i := 0 to |requests|
        invariant Serving(held) && cpus != [] && (shape.total == 0 ==> held == [])
        invariant |trace| == i + 1 && trace[0] == ([], old(Now())) && trace[i] == (held, Now())
        invariant forall j {:trigger requests[j]} :: 0 <= j < i ==> Served(shape, trace[j].1, requests[j], trace[j].0, trace[j + 1].0)
      {
        held := ServeOne(requests[i], held);
        trace := trace + [(held, Now())];
      }
    }
  }

  // ---- Where the objects lie in their page ---------------------------------------------------

  const PAGE := 4096
  const HEADER := 80
  const OFF_SLAB := 1024
  const COLOUR_STEP := 64

  /** `header` is the room kept at the end of the page while the sizes are worked out. */
  datatype Layout = Layout(size: int, objs: int, colourMax: int, header: int)

  function Up16(n: int): int { (n + 15) / 16 * 16 }

  function HeaderFor(objs: int, ctor: bool): int { Up16(HEADER + if ctor then objs * 2 else 0) }

  /** The layout for objects of some size, alignment included. */
  function LayoutFor(size: int, ctor: bool): Layout
    requires size >= 16
  {
    if size >= OFF_SLAB then Layout(size, PAGE / size, PAGE % size, 0)
    else
      var header := HeaderFor(PAGE / size, ctor);
      var slack := PAGE - header;
      Layout(size, (slack - slack % size) / size, slack % size, header)
  }

  /** The header a slab is made with: for the objects it really has. */
  function MadeHeader(l: Layout, ctor: bool): int { if l.size >= OFF_SLAB then 0 else HeaderFor(l.objs, ctor) }

  function NextColour(l: Layout, colour: int): int
    requires l.colourMax >= 0
  {
    if l.colourMax >= COLOUR_STEP then (colour + COLOUR_STEP) % (l.colourMax + 1) else colour
  }

  function Address(l: Layout, colour: int, i: int): int { colour + i * l.size }

  lemma Divided(n: int, d: int)
    requires d > 0
    ensures n == n / d * d + n % d && 0 <= n % d < d
    ensures n >= 0 ==> n / d >= 0
  {
    if n >= 0 { SmallQuotient(n, d); }
  }

  lemma SmallQuotient(n: int, d: int)
    requires n >= 0 && d > 0
    ensures n / d >= 0
  {
  }

  /** The room is used up to the colours. */
  lemma RoomUsed(size: int, ctor: bool)
    requires size >= 16
    ensures var l := LayoutFor(size, ctor); l.size == size && l.objs * size + l.colourMax == PAGE - l.header && 0 <= l.colourMax < size
  {
    if size >= OFF_SLAB {
      Divided(PAGE, size);
    } else {
      var slack := PAGE - HeaderFor(PAGE / size, ctor);
      HeaderBound(size, ctor);
      Divided(slack, size);
      DivMod(slack / size, 0, size);
    }
  }

  /** A slab's header has 80 bytes, and two more for each object that would fit a page if there are constructors, rounded up
      to sixteen; from 1024 bytes on objects have the page for themselves. */
  lemma LayoutIs(size: int, ctor: bool)
    requires size >= 16
    ensures var l := LayoutFor(size, ctor);
            && (size >= 1024 ==> l.header == 0 && l.objs == 4096 / size)
            && (size < 1024 ==> var n := 80 + (if ctor then 2 * (4096 / size) else 0);
                                n <= l.header < n + 16 && l.header % 16 == 0 && l.objs == (4096 - l.header) / size)
  {
    if size < OFF_SLAB {
      var slack := PAGE - HeaderFor(PAGE / size, ctor);
      HeaderBound(size, ctor);
      Divided(slack, size);
      DivMod(slack / size, 0, size);
    }
  }

  /** The colours of the slabs of a cache go up by 64 and start again behind the largest that fits. */
  lemma {:induction false} ColourIs(size: int, ctor: bool, n: int)
    requires size >= 16 && n >= 0
    ensures var l := LayoutFor(size, ctor);
            l.colourMax >= 0 && Colour(l, n) == if l.colourMax >= 64 then 64 * n % (l.colourMax + 1) else 0
    decreases n
  {
    RoomUsed(size, ctor);
    var l := LayoutFor(size, ctor);
    if n == 0 {
      SmallMod(0, l.colourMax + 1);
    } else {
      ColourIs(size, ctor, n - 1);
      if l.colourMax >= 64 { ModAdd(64 * (n - 1), 64, l.colourMax + 1); }
    }
  }

  lemma SmallMod(a: int, d: int)
    requires 0 <= a < d
    ensures a % d == a
  {
    DivMod(0, a, d);
  }

  lemma ModAdd(a: int, b: int, d: int)
    requires 0 <= a && 0 <= b < d
    ensures (a % d + b) % d == (a + b) % d
  {
    Divided(a, d);
    var q, r := a / d, a % d;
    if r + b < d {
      DivMod(q, r + b, d);
      SmallMod(r + b, d);
    } else {
      assert (q + 1) * d == q * d + d;
      DivMod(q + 1, r + b - d, d);
      DivMod(1, r + b - d, d);
    }
  }

  lemma HeaderGrows(a: int, b: int, ctor: bool)
    requires 0 <= a <= b
    ensures HeaderFor(a, ctor) <= HeaderFor(b, ctor)
  {
  }

  lemma HeaderShrinks(size: int, ctor: bool)
    requires 16 <= size < OFF_SLAB
    ensures MadeHeader(LayoutFor(size, ctor), ctor) <= LayoutFor(size, ctor).header
  {
    var n := LayoutFor(size, ctor).objs;
    FewerObjects(size, ctor);
    HeaderGrows(n, PAGE / size, ctor);
  }

  lemma FewerObjects(size: int, ctor: bool)
    requires 16 <= size < OFF_SLAB
    ensures 0 <= LayoutFor(size, ctor).objs <= PAGE / size
  {
    var n := LayoutFor(size, ctor).objs;
    RoomUsed(size, ctor);
    HeaderBound(size, ctor);
    Divided(PAGE, size);
    NotMore(n, PAGE / size, size);
    NotMore(0, n, size);
  }

  lemma NotMore(a: int, b: int, d: int)
    requires d > 0 && a * d < b * d + d
    ensures a <= b
  {
    var k := if a > b then a - b else 1;
    MulGe(k, d);
    assert a > b ==> k * d == a * d - b * d;
  }

  /** Whatever its colour, no object reaches into the header or out of the page, and no two overlap. */
  lemma ObjectsApart(size: int, ctor: bool, colour: int, i: int, j: int)
    requires size >= 16 && 0 <= colour <= LayoutFor(size, ctor).colourMax && 0 <= i <= j < LayoutFor(size, ctor).objs
    ensures var l := LayoutFor(size, ctor);
      0 <= Address(l, colour, i) && (i < j ==> Address(l, colour, i) + size <= Address(l, colour, j))
      && Address(l, colour, j) + size <= PAGE - MadeHeader(l, ctor)
  {
    var l := LayoutFor(size, ctor);
    RoomUsed(size, ctor);
    MulMono(0, i, size);
    MulMono(i, j, size);
    MulMono(j, l.objs, size);
    if size < OFF_SLAB { HeaderShrinks(size, ctor); }
  }

  /** The shape of a cache for objects of some size. */
  function ShapeFor(size: int, ctor: bool): Shape
    requires size >= 16
  {
    Shape(LayoutFor(size, ctor).objs, if size <= 64 then 64 else if size <= 512 then 32 else 8, ctor)
  }

  /** Magazines take 64 objects of up to 64 bytes, 32 of up to 512, and 8 of larger ones. */
  lemma ShapeIs(size: int, ctor: bool)
    requires size >= 16
    ensures var p := ShapeFor(size, ctor);
            p.total == LayoutFor(size, ctor).objs && p.ctor == ctor && p.capacity == if size <= 64 then 64 else if size <= 512 then 32 else 8
  {
  }

  /** Objects larger than a page get a cache that holds none, and only they do. */
  lemma NoObjectsIff(size: int, ctor: bool)
    requires size >= 16
    ensures ShapeOk(ShapeFor(size, ctor)) && (ShapeFor(size, ctor).total == 0 <==> size > PAGE)
  {
    RoomUsed(size, ctor);
    var l := LayoutFor(size, ctor);
    if size < OFF_SLAB { HeaderBound(size, ctor); }
    NotMore(0, l.objs, size);
    if size <= PAGE { NotMore(1, l.objs, size); } else { NotMore(l.objs, 0, size); }
  }

  /** A whole life of a cache. Callers never hold one object twice, and they hold none at all if it is for objects
      larger than a page. */
  method Run(size: int, ctor: bool, mags: seq<(bool, bool)>, requests: seq<Request>)
      returns (cache: ObjectCache, held: seq<Obj>, ghost trace: seq<(seq<Obj>, Cache)>)
    requires size >= 16 && mags != [] && (ctor ==> size <= PAGE)
    ensures fresh(cache) && cache.shape == ShapeFor(size, ctor) && cache.Serving(held) && (size > PAGE ==> held == [])
    ensures NoDup(held) && ServedAll(cache.shape, requests, trace) && trace[0].0 == [] && trace[|requests|] == (held, cache.Now())
  {
    NoObjectsIff(size, ctor);
    cache := new ObjectCache(ShapeFor(size, ctor), mags);
    held, trace := cache.Serve(requests);
    HeldOnce(cache.shape, cache.Now(), held);
  }

  lemma HeaderBound(size: int, ctor: bool)
    requires 16 <= size < OFF_SLAB
    ensures 0 <= LayoutFor(size, ctor).header <= 592
  {
    var q := PAGE / size;
    Divided(PAGE, size);
    MulMono(16, size, if q > 0 then q else 1);
    assert 0 <= q && q * 16 <= PAGE;
  }

  /** Every slab of a cache, however many came before it, has a colour that fits. */
  function Colour(l: Layout, n: int): int
    requires l.colourMax >= 0
  {
    if n <= 0 then 0 else NextColour(l, Colour(l, n - 1))
  }

  lemma {:induction false} ColoursFit(size: int, ctor: bool, n: int)
    requires size >= 16 && n >= 0
    ensures LayoutFor(size, ctor).colourMax >= 0 && 0 <= Colour(LayoutFor(size, ctor), n) <= LayoutFor(size, ctor).colourMax
    decreases n
  {
    RoomUsed(size, ctor);
    if n > 0 { ColoursFit(size, ctor, n - 1); }
  }
}
