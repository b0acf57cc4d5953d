/**
 Fork and copy-on-write over private anonymous memory: the page-fault handler, space clone, unmap and
 destroy of mem/vmm.c together with the page-table clone of mem/mmu.c.

 A world holds every address space at once. A copy-on-write fault is split where the kernel code is:
 `FaultEnter` runs up to the copy, `FaultCommit` is the compare-and-swap. Handlers of any number of
 threads may be in flight between the two, since they hold the address space's semaphore for reading only.
 */
module CopyOnWrite {
  import opened Basics

  type Byte = x: int | 0 <= x < 256
  type Frame = int
  type Page = nat
  type SpaceId = int
  type ThreadId = int

  const PAGE_SIZE := 4096

  function Zeros(): seq<Byte> { seq(PAGE_SIZE, _ => 0) }

  /** A present user entry of the last-level page table. */
  datatype Pte = Pte(frame: Frame, rw: bool, cow: bool, nx: bool)

  /** The flags of the area that covers a page. */
  datatype Area = Area(write: bool, exec: bool, cow: bool)

  datatype Space = Space(areas: map<Page, Area>, ptes: map<Page, Pte>)

  /** A fault handler that has copied `was.frame` to `copy` and has not swapped the entry yet. */
  datatype Flight = Flight(space: SpaceId, page: Page, was: Pte, copy: Frame)

  /**
   `refs` holds the reference count of every allocated frame; the shared zero page is kept apart, because
   its count is never acted on. `lost` counts references that no entry and no handler stands for: those of child
   mappings that could not be created, and those of entries that were overwritten.
   */
  datatype World = World(zero: Frame, spaces: map<SpaceId, Space>, flights: map<ThreadId, Flight>,
                         refs: map<Frame, int>, lost: map<Frame, nat>, bytes: map<Frame, seq<Byte>>)

  datatype Outcome = Handled | Copying | NoMemory | NoAccess | BadAddress

  function RefsOf(w: World, f: Frame): int { if f in w.refs then w.refs[f] else 0 }
  function LostOf(w: World, f: Frame): nat { if f in w.lost then w.lost[f] else 0 }
  function BytesOf(w: World, f: Frame): seq<Byte> { if f in w.bytes then w.bytes[f] else Zeros() }

  /** The entries, over all address spaces, that map a frame. */
  ghost function MappersIn(spaces: map<SpaceId, Space>, f: Frame): set<(SpaceId, Page)> {
    set s, p | s in spaces && p in spaces[s].ptes && spaces[s].ptes[p].frame == f :: (s, p)
  }

  ghost function Mappers(w: World, f: Frame): set<(SpaceId, Page)> { MappersIn(w.spaces, f) }

  /** The handlers in flight that hold a frame as their private copy. */
  ghost function CopiesIn(flights: map<ThreadId, Flight>, f: Frame): set<ThreadId> {
    set t | t in flights && flights[t].copy == f
  }

  ghost function Copies(w: World, f: Frame): set<ThreadId> { CopiesIn(w.flights, f) }

  /** What a read of the page sees: the mapped frame, or zeros where nothing is populated yet. */
  function Seen(w: World, sp: Space, p: Page): seq<Byte> {
    if p in sp.ptes then BytesOf(w, sp.ptes[p].frame) else Zeros()
  }

  /** The memory image of an address space. */
  function Image(w: World, s: SpaceId): map<Page, seq<Byte>>
    requires s in w.spaces
  {
    map p | p in w.spaces[s].areas :: Seen(w, w.spaces[s], p)
  }

  // ---- The invariant -------------------------------------------------------------------------

  ghost predicate Counted(w: World, f: Frame) {
    RefsOf(w, f) == |Mappers(w, f)| + |Copies(w, f)| + LostOf(w, f)
  }

  ghost predicate PteOk(w: World, s: SpaceId, p: Page)
    requires s in w.spaces && p in w.spaces[s].ptes
  {
    var e := w.spaces[s].ptes[p];
    && p in w.spaces[s].areas
    && (e.frame == w.zero || e.frame in w.refs)
    && (e.rw ==> RefsOf(w, e.frame) == 1)
  }

  ghost predicate FlightOk(w: World, fl: Flight) {
    && fl.space in w.spaces
    && fl.page in w.spaces[fl.space].ptes
    && fl.copy in w.refs && w.refs[fl.copy] == 1
    && !fl.was.rw
  }

  ghost predicate Inv(w: World) {
    && w.zero !in w.refs && BytesOf(w, w.zero) == Zeros()
    && (forall f :: f in w.refs ==> w.refs[f] > 0)
    && (forall f :: f != w.zero ==> Counted(w, f))
    && (forall s, p :: s in w.spaces && p in w.spaces[s].ptes ==> PteOk(w, s, p))
    && (forall t :: t in w.flights ==> FlightOk(w, w.flights[t]))
  }

  /** The entry a handler in flight will find. */
  function Found(w: World, fl: Flight): Pte
    requires fl.space in w.spaces && fl.page in w.spaces[fl.space].ptes
  {
    w.spaces[fl.space].ptes[fl.page]
  }

  ghost predicate TrueCopy(w: World, fl: Flight)
    requires FlightOk(w, fl)
  {
    Found(w, fl) == fl.was ==> BytesOf(w, fl.copy) == BytesOf(w, fl.was.frame)
  }

  /** A handler of the space that finds its entry unchanged holds a true copy of the frame. */
  ghost predicate CopiesTrue(w: World, s: SpaceId)
    requires Inv(w)
  {
    forall t {:trigger w.flights[t]} :: t in w.flights && w.flights[t].space == s ==> TrueCopy(w, w.flights[t])
  }

  ghost predicate Settles(w: World, fl: Flight)
    requires FlightOk(w, fl)
  {
    Found(w, fl) == fl.was || Found(w, fl).rw
  }

  /** Every handler of the space finds its entry as it was, or already writable. */
  ghost predicate Settled(w: World, s: SpaceId)
    requires Inv(w)
  {
    forall t {:trigger w.flights[t]} :: t in w.flights && w.flights[t].space == s ==> Settles(w, w.flights[t])
  }

  // ---- The operations ------------------------------------------------------------------------

  function SetPte(w: World, s: SpaceId, p: Page, e: Pte): World
    requires s in w.spaces
  {
    w.(spaces := w.spaces[s := w.spaces[s].(ptes := w.spaces[s].ptes[p := e])])
  }

  /** An entry is written without a look at what it was: the reference of a frame it mapped is lost. */
  function Overwrite(w: World, s: SpaceId, p: Page, e: Pte): World
    requires s in w.spaces
  {
    var ptes := w.spaces[s].ptes;
    var w' := SetPte(w, s, p, e);
    if p in ptes && ptes[p].frame != w.zero then w'.(lost := w.lost[ptes[p].frame := LostOf(w, ptes[p].frame) + 1]) else w'
  }

  /** Drops one reference; the frame goes back to the allocator with the last one. */
  function UnrefIn(refs: map<Frame, int>, f: Frame): map<Frame, int> {
    if f in refs && refs[f] > 1 then refs[f := refs[f] - 1] else refs - {f}
  }

  function Unref(w: World, f: Frame): World { w.(refs := UnrefIn(w.refs, f)) }

  function NewFrame(w: World, f: Frame, contents: seq<Byte>): World {
    w.(refs := w.refs[f := 1], bytes := w.bytes[f := contents])
  }

  predicate FreshFrame(w: World, given: Option<Frame>) {
    given.Some? ==> given.value !in w.refs && given.value != w.zero
  }

  /**
   The handler from entry to its return, or to the point where it holds a private copy. `present` and
   `write` are bits 0 and 1 of the error code, `exec` is bit 4; `given` is what the frame allocator gives.
   */
  function FaultEnter(w: World, t: ThreadId, s: SpaceId, p: Page, present: bool, write: bool, exec: bool,
                      given: Option<Frame>): (r: (World, Outcome))
    requires s in w.spaces && (present ==> p in w.spaces[s].ptes)
  {
    var sp := w.spaces[s];
    if p !in sp.areas then (w, BadAddress)
    else if write && !sp.areas[p].write && !sp.areas[p].cow then (w, NoAccess)
    else if exec && !sp.areas[p].exec then (w, NoAccess)
    else if !present && !write then (Overwrite(w, s, p, Pte(w.zero, false, false, true)), Handled)
    else if !present then
      if given.None? then (w, NoMemory)
      else (Overwrite(NewFrame(w, given.value, Zeros()), s, p,
                      Pte(given.value, sp.areas[p].write, false, !sp.areas[p].exec)), Handled)
    else if write then
      var was := sp.ptes[p];
      if was.frame != w.zero && RefsOf(w, was.frame) == 1 then (SetPte(w, s, p, was.(rw := true)), Handled)
      else if given.None? then (w, NoMemory)
      else (NewFrame(w, given.value, BytesOf(w, was.frame)).(flights := w.flights[t := Flight(s, p, was, given.value)]),
            Copying)
    else (w, NoAccess)
  }

  /** The entry is redirected to the private copy and its former frame loses one reference. */
  function Swap(w: World, fl: Flight): World
    requires fl.space in w.spaces && fl.page in w.spaces[fl.space].areas
  {
    var swapped := SetPte(w, fl.space, fl.page, Pte(fl.copy, true, false, !w.spaces[fl.space].areas[fl.page].exec));
    if fl.was.frame != w.zero then Unref(swapped, fl.was.frame) else swapped
  }

  /** The compare-and-swap of the entry and what follows it. */
  function FaultCommit(w: World, t: ThreadId): (r: (World, Outcome))
    requires t in w.flights && FlightOk(w, w.flights[t])
    requires w.flights[t].page in w.spaces[w.flights[t].space].areas
  {
    var fl := w.flights[t];
    var sp := w.spaces[fl.space];
    var cur := sp.ptes[fl.page];
    var landed := w.(flights := w.flights - {t});
    if cur.rw then (Unref(landed, fl.copy), Handled)
    else if cur != fl.was then (Unref(landed, fl.copy), BadAddress)
    else (Swap(landed, fl), Handled)
  }

  /** A user store; the processor lets it through only on a writable entry. */
  function Store(w: World, s: SpaceId, p: Page, offset: nat, v: Byte): World
    requires s in w.spaces && p in w.spaces[s].ptes
    requires offset < |BytesOf(w, w.spaces[s].ptes[p].frame)|
  {
    var f := w.spaces[s].ptes[p].frame;
    w.(bytes := w.bytes[f := BytesOf(w, f)[offset := v]])
  }

  function Create(w: World, s: SpaceId): World { w.(spaces := w.spaces[s := Space(map[], map[])]) }

  function MapArea(w: World, s: SpaceId, pages: set<Page>, a: Area): World
    requires s in w.spaces
  {
    w.(spaces := w.spaces[s := w.spaces[s].(areas := w.spaces[s].areas + map p | p in pages :: a)])
  }

  /** The pages of a set that map a frame in one space. */
  function Hits(sp: Space, pages: set<Page>, f: Frame): set<Page> {
    set p | p in pages && p in sp.ptes && sp.ptes[p].frame == f
  }

  /** The reference counts after one reference per mapped page of the set is dropped. */
  function DropRefs(refs: map<Frame, int>, sp: Space, pages: set<Page>): map<Frame, int> {
    map f | f in refs && refs[f] > |Hits(sp, pages, f)| :: refs[f] - |Hits(sp, pages, f)|
  }

  /** The reference counts after one reference per mapped page of the set is added. */
  function AddRefs(refs: map<Frame, int>, sp: Space, pages: set<Page>): map<Frame, int> {
    map f | f in refs :: refs[f] + |Hits(sp, pages, f)|
  }

  function Unmap(w: World, s: SpaceId, pages: set<Page>): World
    requires s in w.spaces
  {
    var sp := w.spaces[s];
    w.(refs := DropRefs(w.refs, sp, pages),
       spaces := w.spaces[s := Space(sp.areas - pages, sp.ptes - pages)])
  }

  function Destroy(w: World, s: SpaceId): World
    requires s in w.spaces
  {
    var sp := w.spaces[s];
    w.(refs := DropRefs(w.refs, sp, sp.areas.Keys), spaces := w.spaces - {s})
  }

  function Downgrade(e: Pte): Pte { if e.rw then e.(rw := false, cow := true) else e }
  function Inherit(e: Pte): Pte { Pte(e.frame, false, Downgrade(e).cow, e.nx) }

  function CloneAreas(areas: map<Page, Area>): map<Page, Area> {
    map p | p in areas :: if areas[p].write then areas[p].(cow := true) else areas[p]
  }

  function DowngradeAll(ptes: map<Page, Pte>): map<Page, Pte> { map p | p in ptes :: Downgrade(ptes[p]) }

  function InheritAll(ptes: map<Page, Pte>, failed: set<Page>): map<Page, Pte> {
    map p | p in ptes && p !in failed :: Inherit(ptes[p])
  }

  /** `failed` are the pages whose child entry could not be created for want of table memory. */
  function Clone(w: World, parent: SpaceId, child: SpaceId, failed: set<Page>): World
    requires parent in w.spaces
  {
    var sp := w.spaces[parent];
    w.(spaces := w.spaces
                 [parent := Space(CloneAreas(sp.areas), DowngradeAll(sp.ptes))]
                 [child := Space(CloneAreas(sp.areas), InheritAll(sp.ptes, failed))],
       refs := AddRefs(w.refs, sp, sp.ptes.Keys),
       lost := map f | f in w.refs :: LostOf(w, f) + |Hits(sp, failed, f)|)
  }

  // ---- Runs ----------------------------------------------------------------------------------

  datatype Op =
    | CreateOp(s: SpaceId)
    | MapOp(s: SpaceId, pages: set<Page>, area: Area)
    | EnterOp(t: ThreadId, s: SpaceId, p: Page, present: bool, write: bool, exec: bool, given: Option<Frame>)
    | CommitOp(t: ThreadId)
    | StoreOp(s: SpaceId, p: Page, offset: nat, v: Byte)
    | UnmapOp(s: SpaceId, pages: set<Page>)
    | CloneOp(s: SpaceId, child: SpaceId, failed: set<Page>)
    | DestroyOp(s: SpaceId)

  /** No handler of the space is in flight: a writer of its semaphore excludes them. */
  ghost predicate Quiet(w: World, s: SpaceId) {
    s in w.spaces && forall t :: t in w.flights ==> w.flights[t].space != s
  }

  ghost predicate Enabled(w: World, op: Op) {
    match op
    case CreateOp(s) => s !in w.spaces
    case MapOp(s, pages, _) => Quiet(w, s) && pages !! w.spaces[s].areas.Keys
    case EnterOp(t, s, p, present, _, _, given) =>
      s in w.spaces && t !in w.flights && FreshFrame(w, given) && (present ==> p in w.spaces[s].ptes)
    case CommitOp(t) => t in w.flights
    case StoreOp(s, p, offset, _) =>
      && s in w.spaces && p in w.spaces[s].ptes && w.spaces[s].ptes[p].rw
      && offset < |BytesOf(w, w.spaces[s].ptes[p].frame)|
    case UnmapOp(s, _) => Quiet(w, s)
    case CloneOp(s, child, _) => Quiet(w, s) && child !in w.spaces
    case DestroyOp(s) => Quiet(w, s)
  }

  ghost function Apply(w: World, op: Op): World
    requires Inv(w) && Enabled(w, op)
  {
    match op
    case CreateOp(s) => Create(w, s)
    case MapOp(s, pages, a) => MapArea(w, s, pages, a)
    case EnterOp(t, s, p, present, write, exec, given) => FaultEnter(w, t, s, p, present, write, exec, given).0
    case CommitOp(t) =>
      assert PteOk(w, w.flights[t].space, w.flights[t].page);
      FaultCommit(w, t).0
    case StoreOp(s, p, offset, v) => Store(w, s, p, offset, v)
    case UnmapOp(s, pages) => Unmap(w, s, pages)
    case CloneOp(s, child, failed) => Clone(w, s, child, failed)
    case DestroyOp(s) => Destroy(w, s)
  }

  lemma SetPteMappers(w: World, s: SpaceId, p: Page, e: Pte, f: Frame)
    requires s in w.spaces
    ensures Mappers(SetPte(w, s, p, e), f)
         == if e.frame == f then Mappers(w, f) + {(s, p)} else Mappers(w, f) - {(s, p)}
  {
    var w' := SetPte(w, s, p, e);
    forall s', p' ensures (s', p') in Mappers(w', f) <==>
        (s', p') in if e.frame == f then Mappers(w, f) + {(s, p)} else Mappers(w, f) - {(s, p)}
    {
    }
  }

  function Bump(b: bool): nat { if b then 1 else 0 }

  lemma SetPteCount(w: World, s: SpaceId, p: Page, e: Pte, f: Frame)
    requires s in w.spaces
    ensures |Mappers(SetPte(w, s, p, e), f)|
         == |Mappers(w, f)| + Bump(e.frame == f) - Bump(p in w.spaces[s].ptes && w.spaces[s].ptes[p].frame == f)
  {
    SetPteMappers(w, s, p, e, f);
    var ptes := w.spaces[s].ptes;
    assert (s, p) in Mappers(w, f) <==> p in ptes && ptes[p].frame == f;
  }

  ghost function Paired(s: SpaceId, pages: set<Page>): set<(SpaceId, Page)> {
    set p | p in pages :: (s, p)
  }

  lemma {:induction false} PairedSize(s: SpaceId, pages: set<Page>)
    ensures |Paired(s, pages)| == |pages|
  {
    if pages == {} {
      assert Paired(s, pages) == {};
    } else {
      var q :| q in pages;
      PairedSize(s, pages - {q});
      assert Paired(s, pages) == Paired(s, pages - {q}) + {(s, q)};
    }
  }

  lemma SubsetSize<T>(a: set<T>, b: set<T>)
    requires a <= b
    ensures |a| <= |b|
  {
    assert b == a + (b - a);
  }

  // -- A handler that populates a page, whether it has an entry or not.

  ghost function Populate(w: World, s: SpaceId, p: Page, e: Pte): World
    requires s in w.spaces
  {
    Overwrite(if e.frame == w.zero then w else NewFrame(w, e.frame, Zeros()), s, p, e)
  }

  ghost predicate CanPopulate(w: World, s: SpaceId, p: Page, e: Pte) {
    && s in w.spaces && p in w.spaces[s].areas && e.frame !in w.refs && (e.rw ==> e.frame != w.zero)
  }

  lemma PopulateCount(w: World, s: SpaceId, p: Page, e: Pte, f: Frame)
    requires Counted(w, f) && CanPopulate(w, s, p, e) && f != w.zero
    requires p in w.spaces[s].ptes ==> w.spaces[s].ptes[p].frame == w.zero || w.spaces[s].ptes[p].frame in w.refs
    ensures Counted(Populate(w, s, p, e), f)
  {
    SetPteCount(w, s, p, e, f);
  }

  lemma PopulateRest(w: World, s: SpaceId, p: Page, e: Pte)
    requires Inv(w) && CanPopulate(w, s, p, e)
    ensures var w' := Populate(w, s, p, e);
            && (forall s', p' :: s' in w'.spaces && p' in w'.spaces[s'].ptes ==> PteOk(w', s', p'))
            && (forall t :: t in w'.flights ==> FlightOk(w', w'.flights[t]))
  {
    var w' := Populate(w, s, p, e);
    forall s', p' | s' in w'.spaces && p' in w'.spaces[s'].ptes ensures PteOk(w', s', p') {
      if (s', p') != (s, p) { assert PteOk(w, s', p'); }
    }
    forall t | t in w'.flights ensures FlightOk(w', w'.flights[t]) { assert FlightOk(w, w.flights[t]); }
  }

  lemma PopulateKeepsInv(w: World, s: SpaceId, p: Page, e: Pte)
    requires Inv(w) && CanPopulate(w, s, p, e)
    ensures Inv(Populate(w, s, p, e))
  {
    if p in w.spaces[s].ptes { assert PteOk(w, s, p); }
    forall f | f != w.zero ensures Counted(Populate(w, s, p, e), f) {
      assert Counted(w, f);
      PopulateCount(w, s, p, e, f);
    }
    PopulateRest(w, s, p, e);
  }

  // -- A present write fault on a frame with a single reference.

  lemma ReuseRest(w: World, s: SpaceId, p: Page)
    requires Inv(w) && s in w.spaces && p in w.spaces[s].ptes
    requires RefsOf(w, w.spaces[s].ptes[p].frame) == 1
    ensures var w' := SetPte(w, s, p, w.spaces[s].ptes[p].(rw := true));
            && (forall s', p' :: s' in w'.spaces && p' in w'.spaces[s'].ptes ==> PteOk(w', s', p'))
            && (forall t :: t in w'.flights ==> FlightOk(w', w'.flights[t]))
  {
    var w' := SetPte(w, s, p, w.spaces[s].ptes[p].(rw := true));
    forall s', p' | s' in w'.spaces && p' in w'.spaces[s'].ptes ensures PteOk(w', s', p') {
      assert PteOk(w, s', p');
    }
    forall t | t in w'.flights ensures FlightOk(w', w'.flights[t]) {
      assert FlightOk(w, w.flights[t]);
    }
  }

  lemma ReuseKeepsInv(w: World, s: SpaceId, p: Page)
    requires Inv(w) && s in w.spaces && p in w.spaces[s].ptes
    requires RefsOf(w, w.spaces[s].ptes[p].frame) == 1
    ensures Inv(SetPte(w, s, p, w.spaces[s].ptes[p].(rw := true)))
  {
    var e := w.spaces[s].ptes[p].(rw := true);
    forall f | f != w.zero ensures Counted(SetPte(w, s, p, e), f) {
      SetPteCount(w, s, p, e, f);
      assert Counted(w, f);
    }
    ReuseRest(w, s, p);
  }

  // -- A present write fault on a shared frame: the private copy is taken.

  ghost function TakeCopy(w: World, t: ThreadId, s: SpaceId, p: Page, f: Frame): World
    requires s in w.spaces && p in w.spaces[s].ptes
  {
    var e := w.spaces[s].ptes[p];
    NewFrame(w, f, BytesOf(w, e.frame)).(flights := w.flights[t := Flight(s, p, e, f)])
  }

  ghost predicate CanCopy(w: World, t: ThreadId, s: SpaceId, p: Page, f: Frame) {
    && s in w.spaces && p in w.spaces[s].ptes && t !in w.flights
    && f !in w.refs && f != w.zero && !w.spaces[s].ptes[p].rw
  }

  lemma CopiesPut(flights: map<ThreadId, Flight>, t: ThreadId, fl: Flight, f: Frame)
    requires t !in flights
    ensures |CopiesIn(flights[t := fl], f)| == |CopiesIn(flights, f)| + Bump(fl.copy == f)
  {
    var more := if fl.copy == f then {t} else {};
    assert CopiesIn(flights[t := fl], f) == CopiesIn(flights, f) + more;
  }

  lemma CopyCount(w: World, t: ThreadId, s: SpaceId, p: Page, f: Frame, g: Frame)
    requires Counted(w, g) && CanCopy(w, t, s, p, f)
    ensures Counted(TakeCopy(w, t, s, p, f), g)
  {
    CopiesPut(w.flights, t, Flight(s, p, w.spaces[s].ptes[p], f), g);
  }

  lemma CopyRest(w: World, t: ThreadId, s: SpaceId, p: Page, f: Frame)
    requires Inv(w) && CanCopy(w, t, s, p, f)
    ensures var w' := TakeCopy(w, t, s, p, f);
            && (forall s', p' :: s' in w'.spaces && p' in w'.spaces[s'].ptes ==> PteOk(w', s', p'))
            && (forall t' :: t' in w'.flights ==> FlightOk(w', w'.flights[t']))
  {
    var w' := TakeCopy(w, t, s, p, f);
    assert PteOk(w, s, p);
    forall s', p' | s' in w'.spaces && p' in w'.spaces[s'].ptes ensures PteOk(w', s', p') {
      assert PteOk(w, s', p');
    }
    forall t' | t' in w'.flights ensures FlightOk(w', w'.flights[t']) {
      if t' != t {
        assert FlightOk(w, w.flights[t']);
        assert PteOk(w, w.flights[t'].space, w.flights[t'].page);
      }
    }
  }

  lemma CopyKeepsInv(w: World, t: ThreadId, s: SpaceId, p: Page, f: Frame)
    requires Inv(w) && CanCopy(w, t, s, p, f)
    ensures Inv(TakeCopy(w, t, s, p, f))
  {
    forall g | g != w.zero ensures Counted(TakeCopy(w, t, s, p, f), g) { CopyCount(w, t, s, p, f, g); }
    CopyRest(w, t, s, p, f);
  }

  /** What a fault does to the world, if anything. */
  ghost predicate Enters(w: World, w': World, t: ThreadId, s: SpaceId, p: Page, present: bool, handled: bool) {
    || w' == w
    || (!present && handled && s in w'.spaces && p in w'.spaces[s].ptes
        && CanPopulate(w, s, p, w'.spaces[s].ptes[p]) && w' == Populate(w, s, p, w'.spaces[s].ptes[p]))
    || (present && s in w.spaces && p in w.spaces[s].ptes && RefsOf(w, w.spaces[s].ptes[p].frame) == 1
        && w' == SetPte(w, s, p, w.spaces[s].ptes[p].(rw := true)))
    || (!handled && t in w'.flights && CanCopy(w, t, s, p, w'.flights[t].copy) && w' == TakeCopy(w, t, s, p, w'.flights[t].copy))
  }

  lemma EnterCases(w: World, t: ThreadId, s: SpaceId, p: Page, present: bool, write: bool, exec: bool, given: Option<Frame>)
    requires Inv(w) && Enabled(w, EnterOp(t, s, p, present, write, exec, given))
    ensures var (w', outcome) := FaultEnter(w, t, s, p, present, write, exec, given); Enters(w, w', t, s, p, present, outcome == Handled)
  {
    var (w', outcome) := FaultEnter(w, t, s, p, present, write, exec, given);
    if outcome == Copying {
      assert PteOk(w, s, p);
      assert w'.flights[t].copy == given.value;
    }
  }

  lemma EnterKeepsInv(w: World, t: ThreadId, s: SpaceId, p: Page, present: bool, write: bool, exec: bool, given: Option<Frame>)
    requires Inv(w) && Enabled(w, EnterOp(t, s, p, present, write, exec, given))
    ensures Inv(FaultEnter(w, t, s, p, present, write, exec, given).0)
  {
    var (w', outcome) := FaultEnter(w, t, s, p, present, write, exec, given);
    EnterCases(w, t, s, p, present, write, exec, given);
    if w' != w {
      if !present && outcome == Handled {
        PopulateKeepsInv(w, s, p, w'.spaces[s].ptes[p]);
      } else if outcome == Handled {
        ReuseKeepsInv(w, s, p);
      } else {
        CopyKeepsInv(w, t, s, p, w'.flights[t].copy);
      }
    }
  }

  // -- The compare-and-swap.

  /** Nobody else holds a private copy: no entry maps it and no other handler has it. */
  lemma CopyIsPrivate(w: World, t: ThreadId)
    requires Inv(w) && t in w.flights
    ensures Copies(w, w.flights[t].copy) == {t} && Mappers(w, w.flights[t].copy) == {}
  {
    var f := w.flights[t].copy;
    assert FlightOk(w, w.flights[t]) && Counted(w, f);
    assert t in Copies(w, f);
    assert |Copies(w, f) - {t}| == |Copies(w, f)| - 1;
  }

  ghost predicate CanCommit(w: World, t: ThreadId) {
    t in w.flights && FlightOk(w, w.flights[t]) && PteOk(w, w.flights[t].space, w.flights[t].page)
  }

  // The count of a frame while the handler that has landed still holds its copy.
  ghost predicate CountedInHand(w: World, copy: Frame, f: Frame) {
    RefsOf(w, f) == |Mappers(w, f)| + |Copies(w, f)| + LostOf(w, f) + if f == copy then 1 else 0
  }

  lemma LandCount(w: World, t: ThreadId, f: Frame)
    requires Counted(w, f) && t in w.flights && Copies(w, w.flights[t].copy) == {t}
    ensures CountedInHand(w.(flights := w.flights - {t}), w.flights[t].copy, f)
  {
    var flights := w.flights - {t};
    assert CopiesIn(flights, f) == if f == w.flights[t].copy then {} else Copies(w, f);
  }

  lemma SwapCount(w: World, fl: Flight, f: Frame)
    requires fl.space in w.spaces && fl.page in w.spaces[fl.space].areas
    requires fl.page in w.spaces[fl.space].ptes && w.spaces[fl.space].ptes[fl.page] == fl.was
    requires CountedInHand(w, fl.copy, f) && fl.was.frame != fl.copy && f != w.zero
    ensures Counted(Swap(w, fl), f)
  {
    SetPteCount(w, fl.space, fl.page, Swap(w, fl).spaces[fl.space].ptes[fl.page], f);
  }

  lemma TwoMappers(w: World, f: Frame, a: (SpaceId, Page), b: (SpaceId, Page))
    requires Counted(w, f) && a != b && a in Mappers(w, f) && b in Mappers(w, f)
    ensures RefsOf(w, f) >= 2
  {
    SubsetSize({a, b}, Mappers(w, f));
  }

  lemma SwapPtes(w: World, fl: Flight, s: SpaceId, p: Page)
    requires fl.space in w.spaces && fl.page in w.spaces[fl.space].areas
    requires fl.page in w.spaces[fl.space].ptes && w.spaces[fl.space].ptes[fl.page] == fl.was
    requires RefsOf(w, fl.copy) == 1 && fl.was.frame != fl.copy
    requires s in w.spaces && p in w.spaces[s].ptes && PteOk(w, s, p)
    requires var f := w.spaces[s].ptes[p].frame;
             (s, p) != (fl.space, fl.page) && f == fl.was.frame && f != w.zero ==> RefsOf(w, f) >= 2 && !w.spaces[s].ptes[p].rw
    ensures var w' := Swap(w, fl); s in w'.spaces && p in w'.spaces[s].ptes && PteOk(w', s, p)
  {
  }

  lemma CommitPtes(w: World, t: ThreadId, s: SpaceId, p: Page)
    requires Inv(w) && CanCommit(w, t)
    requires s in w.spaces && p in w.spaces[s].ptes
    ensures var w' := FaultCommit(w, t).0; s in w'.spaces && p in w'.spaces[s].ptes && PteOk(w', s, p)
  {
    var fl := w.flights[t];
    var cur := w.spaces[fl.space].ptes[fl.page];
    var f := w.spaces[s].ptes[p].frame;
    CopyIsPrivate(w, t);
    assert PteOk(w, s, p);
    assert (s, p) in Mappers(w, f) && (fl.space, fl.page) in Mappers(w, cur.frame);
    if !cur.rw && cur == fl.was {
      if (s, p) != (fl.space, fl.page) && f == cur.frame && f != w.zero {
        assert Counted(w, f);
        TwoMappers(w, f, (s, p), (fl.space, fl.page));
      }
      SwapPtes(w.(flights := w.flights - {t}), fl, s, p);
    }
  }

  lemma CommitFlights(w: World, t: ThreadId, t': ThreadId)
    requires CanCommit(w, t) && CanCommit(w, t') && t' != t
    requires Copies(w, w.flights[t].copy) == {t} && Mappers(w, w.flights[t].copy) == {}
    requires Mappers(w, w.flights[t'].copy) == {}
    ensures var w' := FaultCommit(w, t).0; t' in w'.flights && FlightOk(w', w'.flights[t'])
  {
    assert t' !in Copies(w, w.flights[t].copy);
    assert (w.flights[t].space, w.flights[t].page) in Mappers(w, w.spaces[w.flights[t].space].ptes[w.flights[t].page].frame);
  }

  lemma CommitCount(w: World, t: ThreadId, g: Frame)
    requires Inv(w) && CanCommit(w, t) && g != w.zero
    ensures Counted(FaultCommit(w, t).0, g)
  {
    assert Counted(w, g);
    CopyIsPrivate(w, t);
    assert (w.flights[t].space, w.flights[t].page) !in Mappers(w, w.flights[t].copy);
    LandCount(w, t, g);
    if Found(w, w.flights[t]) == w.flights[t].was {
      SwapCount(w.(flights := w.flights - {t}), w.flights[t], g);
    }
  }

  lemma CommitFlightsOk(w: World, t: ThreadId, t': ThreadId)
    requires Inv(w) && CanCommit(w, t) && t' in w.flights && t' != t
    ensures var w' := FaultCommit(w, t).0; t' in w'.flights && FlightOk(w', w'.flights[t'])
  {
    assert FlightOk(w, w.flights[t']) && PteOk(w, w.flights[t'].space, w.flights[t'].page);
    CopyIsPrivate(w, t);
    CopyIsPrivate(w, t');
    CommitFlights(w, t, t');
  }

  /** The swap keeps the invariant whatever it finds, and reports success unless some third value is in the entry. */
  lemma CommitKeepsInv(w: World, t: ThreadId)
    requires Inv(w) && t in w.flights
    ensures CanCommit(w, t) && Inv(FaultCommit(w, t).0)
    ensures Settled(w, w.flights[t].space) ==> FaultCommit(w, t).1 == Handled
  {
    assert FlightOk(w, w.flights[t]);
    assert PteOk(w, w.flights[t].space, w.flights[t].page);
    var w' := FaultCommit(w, t).0;
    forall g | g != w.zero ensures Counted(w', g) { CommitCount(w, t, g); }
    forall s, p | s in w'.spaces && p in w'.spaces[s].ptes ensures PteOk(w', s, p) { CommitPtes(w, t, s, p); }
    forall t' | t' in w'.flights ensures FlightOk(w', w'.flights[t']) { CommitFlightsOk(w, t, t'); }
    if Settled(w, w.flights[t].space) { assert Settles(w, w.flights[t]); }
  }

  // -- Unmap and destroy: the entries of a set of pages of one space go away.

  ghost predicate Dropped(w: World, s: SpaceId, pages: set<Page>, w': World) {
    && s in w.spaces && w'.spaces.Keys + {s} == w.spaces.Keys
    && (s !in w'.spaces ==> w.spaces[s].ptes.Keys <= pages)
    && (s in w'.spaces ==> w'.spaces[s] == Space(w.spaces[s].areas - pages, w.spaces[s].ptes - pages))
    && (forall s' :: s' in w'.spaces && s' != s ==> w'.spaces[s'] == w.spaces[s'])
    && w' == w.(refs := DropRefs(w.refs, w.spaces[s], pages), spaces := w'.spaces)
  }

  lemma DropMapper(w: World, s: SpaceId, pages: set<Page>, w': World, f: Frame, s': SpaceId, p: Page)
    requires Dropped(w, s, pages, w')
    ensures (s', p) in Mappers(w', f) <==> (s', p) in Mappers(w, f) && !(s' == s && p in Hits(w.spaces[s], pages, f))
  {
    assert s' in w'.spaces ==> s' in w.spaces.Keys;
    assert s' in w.spaces.Keys ==> s' in w'.spaces.Keys || s' == s;
  }

  lemma DropMappers(w: World, s: SpaceId, pages: set<Page>, w': World, f: Frame)
    requires Dropped(w, s, pages, w')
    ensures |Mappers(w', f)| == |Mappers(w, f)| - |Hits(w.spaces[s], pages, f)|
  {
    var gone := Paired(s, Hits(w.spaces[s], pages, f));
    PairedSize(s, Hits(w.spaces[s], pages, f));
    forall s', p: Page ensures (s', p) in Mappers(w', f) <==> (s', p) in Mappers(w, f) - gone { DropMapper(w, s, pages, w', f, s', p); }
    assert gone <= Mappers(w, f);
    assert Mappers(w', f) == Mappers(w, f) - gone;
  }

  lemma DropCount(w: World, s: SpaceId, pages: set<Page>, w': World, f: Frame)
    requires Dropped(w, s, pages, w') && Counted(w, f)
    ensures Counted(w', f) && RefsOf(w', f) <= RefsOf(w, f)
    ensures |Mappers(w', f)| == |Mappers(w, f)| ==> RefsOf(w', f) == RefsOf(w, f)
  {
    DropMappers(w, s, pages, w', f);
  }

  lemma DropPtes(w: World, s: SpaceId, pages: set<Page>, w': World, s': SpaceId, p: Page)
    requires Dropped(w, s, pages, w') && s' in w'.spaces && p in w'.spaces[s'].ptes
    requires PteOk(w, s', p)
    requires var f := w.spaces[s'].ptes[p].frame; f != w.zero ==> Counted(w, f)
    requires w.zero !in w.refs
    ensures PteOk(w', s', p)
  {
    var f := w.spaces[s'].ptes[p].frame;
    if f != w.zero {
      DropCount(w, s, pages, w', f);
      assert (s', p) in Mappers(w', f);
    }
  }

  lemma DropKeepsInv(w: World, s: SpaceId, pages: set<Page>, w': World)
    requires Inv(w) && Quiet(w, s) && Dropped(w, s, pages, w')
    ensures Inv(w')
  {
    forall f | f != w.zero ensures Counted(w', f) {
      assert Counted(w, f);
      DropCount(w, s, pages, w', f);
    }
    forall s', p | s' in w'.spaces && p in w'.spaces[s'].ptes ensures PteOk(w', s', p) {
      assert PteOk(w, s', p);
      assert w.spaces[s'].ptes[p].frame != w.zero ==> Counted(w, w.spaces[s'].ptes[p].frame);
      DropPtes(w, s, pages, w', s', p);
    }
    forall t | t in w'.flights ensures FlightOk(w', w'.flights[t]) {
      CopyIsPrivate(w, t);
      assert FlightOk(w, w.flights[t]) && Counted(w, w.flights[t].copy);
      DropCount(w, s, pages, w', w.flights[t].copy);
    }
  }

  // -- Clone.

  lemma HitsSplit(sp: Space, failed: set<Page>, f: Frame)
    ensures |Hits(sp, sp.ptes.Keys, f)| == |Hits(sp, sp.ptes.Keys - failed, f)| + |Hits(sp, failed, f)|
  {
    assert Hits(sp, sp.ptes.Keys, f) == Hits(sp, sp.ptes.Keys - failed, f) + Hits(sp, failed, f);
  }

  lemma CloneMappers(w: World, s: SpaceId, child: SpaceId, failed: set<Page>, f: Frame)
    requires s in w.spaces && child !in w.spaces
    ensures Mappers(Clone(w, s, child, failed), f)
         == Mappers(w, f) + Paired(child, Hits(w.spaces[s], w.spaces[s].ptes.Keys - failed, f))
  {
    var all := Mappers(w, f) + Paired(child, Hits(w.spaces[s], w.spaces[s].ptes.Keys - failed, f));
    forall s', p ensures (s', p) in Mappers(Clone(w, s, child, failed), f) <==> (s', p) in all { }
  }

  lemma CloneCount(w: World, s: SpaceId, child: SpaceId, failed: set<Page>, f: Frame)
    requires s in w.spaces && child !in w.spaces && Counted(w, f)
    requires f !in w.refs ==> Hits(w.spaces[s], w.spaces[s].ptes.Keys, f) == {}
    ensures Counted(Clone(w, s, child, failed), f)
  {
    CloneMappers(w, s, child, failed, f);
    HitsSplit(w.spaces[s], failed, f);
    PairedSize(child, Hits(w.spaces[s], w.spaces[s].ptes.Keys - failed, f));
  }

  lemma HitsCounted(w: World, s: SpaceId, f: Frame)
    requires s in w.spaces && Counted(w, f)
    ensures |Hits(w.spaces[s], w.spaces[s].ptes.Keys, f)| <= RefsOf(w, f)
  {
    var hits := Hits(w.spaces[s], w.spaces[s].ptes.Keys, f);
    PairedSize(s, hits);
    SubsetSize(Paired(s, hits), Mappers(w, f));
  }

  lemma ClonePtes(w: World, s: SpaceId, child: SpaceId, failed: set<Page>, s': SpaceId, p: Page)
    requires Inv(w) && s in w.spaces && child !in w.spaces
    requires var w' := Clone(w, s, child, failed); s' in w'.spaces && p in w'.spaces[s'].ptes
    ensures PteOk(Clone(w, s, child, failed), s', p)
  {
    if s' == s || s' == child {
      assert PteOk(w, s, p);
    } else {
      assert PteOk(w, s', p);
      var e := w.spaces[s'].ptes[p];
      if e.rw {
        var hits := Hits(w.spaces[s], w.spaces[s].ptes.Keys, e.frame);
        if q :| q in hits {
          assert Counted(w, e.frame) && (s', p) in Mappers(w, e.frame) && (s, q) in Mappers(w, e.frame);
          TwoMappers(w, e.frame, (s', p), (s, q));
        }
      }
    }
  }

  lemma CloneFlights(w: World, s: SpaceId, child: SpaceId, failed: set<Page>, t: ThreadId)
    requires Inv(w) && Quiet(w, s) && child !in w.spaces && t in w.flights
    ensures FlightOk(Clone(w, s, child, failed), w.flights[t])
  {
    var fl := w.flights[t];
    assert FlightOk(w, fl);
    CopyIsPrivate(w, t);
    forall q | q in w.spaces[s].ptes ensures w.spaces[s].ptes[q].frame != fl.copy {
      assert (s, q) in Mappers(w, w.spaces[s].ptes[q].frame);
    }
    assert Hits(w.spaces[s], w.spaces[s].ptes.Keys, fl.copy) == {};
  }

  lemma CloneKeepsInv(w: World, s: SpaceId, child: SpaceId, failed: set<Page>)
    requires Inv(w) && Quiet(w, s) && child !in w.spaces
    ensures Inv(Clone(w, s, child, failed))
  {
    var w' := Clone(w, s, child, failed);
    forall f | f != w.zero ensures Counted(w', f) {
      assert Counted(w, f);
      HitsCounted(w, s, f);
      CloneCount(w, s, child, failed, f);
    }
    forall s', p | s' in w'.spaces && p in w'.spaces[s'].ptes ensures PteOk(w', s', p) {
      ClonePtes(w, s, child, failed, s', p);
    }
    forall t | t in w'.flights ensures FlightOk(w', w'.flights[t]) { CloneFlights(w, s, child, failed, t); }
  }

  // -- Creating a space, mapping an area and storing a byte.

  lemma CreateKeepsInv(w: World, s: SpaceId)
    requires Inv(w) && s !in w.spaces
    ensures Inv(Create(w, s))
  {
    var w' := Create(w, s);
    forall f | f != w.zero ensures Counted(w', f) {
      assert Counted(w, f);
      assert Mappers(w', f) == Mappers(w, f);
    }
    forall s', p | s' in w'.spaces && p in w'.spaces[s'].ptes ensures PteOk(w', s', p) { assert PteOk(w, s', p); }
    forall t | t in w'.flights ensures FlightOk(w', w'.flights[t]) { assert FlightOk(w, w.flights[t]); }
  }

  lemma MapKeepsInv(w: World, s: SpaceId, pages: set<Page>, a: Area)
    requires Inv(w) && s in w.spaces
    ensures Inv(MapArea(w, s, pages, a))
  {
    var w' := MapArea(w, s, pages, a);
    forall f | f != w.zero ensures Counted(w', f) {
      assert Counted(w, f);
      assert Mappers(w', f) == Mappers(w, f);
    }
    forall s', p | s' in w'.spaces && p in w'.spaces[s'].ptes ensures PteOk(w', s', p) { assert PteOk(w, s', p); }
    forall t | t in w'.flights ensures FlightOk(w', w'.flights[t]) { assert FlightOk(w, w.flights[t]); }
  }

  /** A writable entry is the only way to reach its frame: no other entry maps it and no handler copies it. */
  lemma WritableIsSole(w: World, s: SpaceId, p: Page, s': SpaceId, p': Page)
    requires Inv(w) && s in w.spaces && p in w.spaces[s].ptes && w.spaces[s].ptes[p].rw
    requires s' in w.spaces && p' in w.spaces[s'].ptes && (s', p') != (s, p)
    ensures w.spaces[s'].ptes[p'].frame != w.spaces[s].ptes[p].frame
  {
    assert PteOk(w, s, p);
    var f := w.spaces[s].ptes[p].frame;
    if w.spaces[s'].ptes[p'].frame == f {
      assert Counted(w, f) && (s, p) in Mappers(w, f) && (s', p') in Mappers(w, f);
      TwoMappers(w, f, (s, p), (s', p'));
    }
  }

  lemma StoreKeepsInv(w: World, s: SpaceId, p: Page, offset: nat, v: Byte)
    requires Inv(w) && Enabled(w, StoreOp(s, p, offset, v))
    ensures Inv(Store(w, s, p, offset, v))
  {
    var w' := Store(w, s, p, offset, v);
    assert PteOk(w, s, p);
    forall f | f != w.zero ensures Counted(w', f) { assert Counted(w, f); }
    forall s', p' | s' in w'.spaces && p' in w'.spaces[s'].ptes ensures PteOk(w', s', p') { assert PteOk(w, s', p'); }
    forall t | t in w'.flights ensures FlightOk(w', w'.flights[t]) {
      var fl := w.flights[t];
      assert FlightOk(w, fl);
      CopyIsPrivate(w, t);
      assert (s, p) in Mappers(w, w.spaces[s].ptes[p].frame);
      if (fl.space, fl.page) != (s, p) { WritableIsSole(w, s, p, fl.space, fl.page); }
    }
  }

  lemma StepKeepsInv(w: World, op: Op)
    requires Inv(w) && Enabled(w, op)
    ensures Inv(Apply(w, op))
  {
    match op
    case CreateOp(s) => CreateKeepsInv(w, s);
    case MapOp(s, pages, a) => MapKeepsInv(w, s, pages, a);
    case EnterOp(t, s, p, present, write, exec, given) => EnterKeepsInv(w, t, s, p, present, write, exec, given);
    case CommitOp(t) => CommitKeepsInv(w, t);
    case StoreOp(s, p, offset, v) => StoreKeepsInv(w, s, p, offset, v);
    case UnmapOp(s, pages) => DropKeepsInv(w, s, pages, Unmap(w, s, pages));
    case CloneOp(s, child, failed) => CloneKeepsInv(w, s, child, failed);
    case DestroyOp(s) =>
      forall p | p in w.spaces[s].ptes ensures p in w.spaces[s].areas { assert PteOk(w, s, p); }
      DropKeepsInv(w, s, w.spaces[s].areas.Keys, Destroy(w, s));
  }

  // ---- Images --------------------------------------------------------------------------------

  /** The operations that change what a space sees: its own stores and its own mappings. */
  predicate ActsOn(op: Op, s: SpaceId) {
    match op
    case CreateOp(s') => s' == s
    case MapOp(s', _, _) => s' == s
    case StoreOp(s', _, _, _) => s' == s
    case UnmapOp(s', _) => s' == s
    case DestroyOp(s') => s' == s
    case _ => false
  }

  ghost predicate SameImage(w: World, w': World, s: SpaceId) {
    s in w.spaces && s in w'.spaces && Image(w', s) == Image(w, s)
  }

  lemma FramesKnown(w: World, s: SpaceId, p: Page)
    requires Inv(w) && s in w.spaces && p in w.spaces[s].ptes
    ensures p in w.spaces[s].areas
    ensures w.spaces[s].ptes[p].frame == w.zero || w.spaces[s].ptes[p].frame in w.refs
  {
    assert PteOk(w, s, p);
  }

  // At most one entry changes, and no frame in use changes its bytes.
  ghost predicate Redirects(w: World, w': World, s: SpaceId, p: Page) {
    && s in w.spaces && w'.spaces.Keys == w.spaces.Keys
    && (forall s' :: s' in w.spaces && s' != s ==> w'.spaces[s'] == w.spaces[s'])
    && w'.spaces[s].areas == w.spaces[s].areas
    && w'.spaces[s].ptes - {p} == w.spaces[s].ptes - {p}
    && (forall f :: f == w.zero || f in w.refs ==> BytesOf(w', f) == BytesOf(w, f))
  }

  lemma RedirectKeepsImage(w: World, w': World, s: SpaceId, p: Page, s': SpaceId)
    requires Inv(w) && Redirects(w, w', s, p) && s' in w.spaces
    requires s' == s ==> Seen(w', w'.spaces[s], p) == Seen(w, w.spaces[s], p)
    ensures SameImage(w, w', s')
  {
    var sp, sp' := w.spaces[s'], w'.spaces[s'];
    forall q | q in sp.areas ensures Seen(w', sp', q) == Seen(w, sp, q) {
      if q in sp.ptes { FramesKnown(w, s', q); }
      if s' == s && q != p {
        assert q in sp.ptes <==> q in sp.ptes - {p};
        assert q in sp'.ptes <==> q in sp'.ptes - {p};
        assert q in sp.ptes ==> (sp.ptes - {p})[q] == (sp'.ptes - {p})[q];
      }
    }
  }

  lemma OverwriteRedirects(w: World, s: SpaceId, p: Page, e: Pte)
    requires s in w.spaces
    ensures Redirects(w, Overwrite(w, s, p, e), s, p) && Redirects(w, SetPte(w, s, p, e), s, p)
  {
    assert w.spaces[s].ptes[p := e] - {p} == w.spaces[s].ptes - {p};
  }

  lemma EnterRedirects(w: World, t: ThreadId, s: SpaceId, p: Page, present: bool, write: bool, exec: bool, given: Option<Frame>)
    requires Inv(w) && Enabled(w, EnterOp(t, s, p, present, write, exec, given))
    ensures Redirects(w, FaultEnter(w, t, s, p, present, write, exec, given).0, s, p)
  {
    var (w', outcome) := FaultEnter(w, t, s, p, present, write, exec, given);
    EnterCases(w, t, s, p, present, write, exec, given);
    if !present && outcome == Handled {
      var e := w'.spaces[s].ptes[p];
      OverwriteRedirects(if e.frame == w.zero then w else NewFrame(w, e.frame, Zeros()), s, p, e);
    } else if outcome == Handled {
      OverwriteRedirects(w, s, p, w.spaces[s].ptes[p].(rw := true));
    }
  }

  /** What the page of a fault looks like afterwards: zeros behind a handled fault without the present bit, else as before. */
  lemma EnterSeen(w: World, t: ThreadId, s: SpaceId, p: Page, present: bool, write: bool, exec: bool, given: Option<Frame>)
    requires Inv(w) && Enabled(w, EnterOp(t, s, p, present, write, exec, given))
    ensures var (w', outcome) := FaultEnter(w, t, s, p, present, write, exec, given);
            Seen(w', w'.spaces[s], p) == if !present && outcome == Handled then Zeros() else Seen(w, w.spaces[s], p)
  {
    var (w', outcome) := FaultEnter(w, t, s, p, present, write, exec, given);
    EnterCases(w, t, s, p, present, write, exec, given);
    if !present && outcome == Handled {
      assert BytesOf(w', w'.spaces[s].ptes[p].frame) == Zeros();
    } else if p in w.spaces[s].ptes {
      FramesKnown(w, s, p);
    }
  }

  /** The fault finds the page populated although its error code says it is not. */
  ghost predicate Stale(w: World, s: SpaceId, p: Page, present: bool) { !present && s in w.spaces && p in w.spaces[s].ptes }

  /** A fault without the present bit passes the checks of its area and has the frame it needs. */
  predicate Populates(w: World, s: SpaceId, p: Page, write: bool, exec: bool, given: Option<Frame>) {
    && s in w.spaces && p in w.spaces[s].areas
    && (write ==> (w.spaces[s].areas[p].write || w.spaces[s].areas[p].cow) && given.Some?)
    && (exec ==> w.spaces[s].areas[p].exec)
  }

  /** The entry such a fault brings: the zero page for a read, the given frame with the area's flags for a write. */
  function NewEntry(w: World, s: SpaceId, p: Page, write: bool, exec: bool, given: Option<Frame>): Pte
    requires Populates(w, s, p, write, exec, given)
  {
    var a := w.spaces[s].areas[p];
    if write then Pte(given.value, a.write, false, !a.exec) else Pte(w.zero, false, false, true)
  }

  /** The area of a page allows an access: writes also where they are to be caught and copied. */
  predicate Allows(a: Area, write: bool, exec: bool) { (write ==> a.write || a.cow) && (exec ==> a.exec) }

  /** The not-present branch succeeds if and only if the area and the allocator let it, and then writes that entry. */
  lemma PopulatesIff(w: World, t: ThreadId, s: SpaceId, p: Page, write: bool, exec: bool, given: Option<Frame>)
    requires s in w.spaces
    ensures var (w', outcome) := FaultEnter(w, t, s, p, false, write, exec, given);
            && (outcome == Handled <==> Populates(w, s, p, write, exec, given))
            && (outcome == Handled ==> w'.spaces == w.spaces[s := w.spaces[s].(ptes := w.spaces[s].ptes[p := NewEntry(w, s, p, write, exec, given)])])
            && (outcome == Handled && !write ==> NewEntry(w, s, p, write, exec, given) == Pte(w.zero, false, false, true))
            && (outcome == Handled && write ==>
                  var a := w.spaces[s].areas[p]; NewEntry(w, s, p, write, exec, given) == Pte(given.value, a.write, false, !a.exec))
            && (outcome == BadAddress <==> p !in w.spaces[s].areas)
            && (outcome == NoAccess <==> p in w.spaces[s].areas && !Allows(w.spaces[s].areas[p], write, exec))
            && (outcome == NoMemory <==> p in w.spaces[s].areas && Allows(w.spaces[s].areas[p], write, exec) && write && given.None?)
            && (outcome != Handled ==> w' == w)
  {
  }

  /** The entry of a page maps a frame that nothing else refers to. */
  predicate Sole(w: World, s: SpaceId, p: Page)
    requires s in w.spaces && p in w.spaces[s].ptes
  {
    w.spaces[s].ptes[p].frame != w.zero && RefsOf(w, w.spaces[s].ptes[p].frame) == 1
  }

  /**
   The outcome of a fault on a present page. Only writes that the area allows are served: on a sole reference the entry
   becomes writable and stays the same otherwise; else the frame is copied, if there is one to copy to.
   */
  lemma PresentIff(w: World, t: ThreadId, s: SpaceId, p: Page, write: bool, exec: bool, given: Option<Frame>)
    requires Inv(w) && Enabled(w, EnterOp(t, s, p, true, write, exec, given))
    ensures p in w.spaces[s].areas
    ensures var (w', outcome) := FaultEnter(w, t, s, p, true, write, exec, given);
            var served := write && Allows(w.spaces[s].areas[p], write, exec);
            var was := w.spaces[s].ptes[p];
            && outcome != BadAddress
            && (outcome == NoAccess <==> !served)
            && (outcome == NoMemory <==> served && !Sole(w, s, p) && given.None?)
            && (outcome == Handled <==> served && Sole(w, s, p))
            && (outcome == Copying <==> served && !Sole(w, s, p) && given.Some?)
            && (outcome in {NoAccess, NoMemory} ==> w' == w)
            && (outcome == Handled ==>
                  w' == w.(spaces := w.spaces[s := w.spaces[s].(ptes := w.spaces[s].ptes[p := Pte(was.frame, true, was.cow, was.nx)])]))
            && (outcome == Copying ==>
                  && w'.spaces == w.spaces && w'.flights == w.flights[t := Flight(s, p, was, given.value)]
                  && BytesOf(w', given.value) == BytesOf(w, was.frame))
  {
    assert PteOk(w, s, p);
  }

  /**
   The outcome of the swap. A handler that finds its entry writable or as it was leaves the page writable, in the second
   case on its copy with the executability of the area; a third value stays and the fault fails.
   */
  lemma CommitIff(w: World, t: ThreadId)
    requires Inv(w) && t in w.flights
    ensures CanCommit(w, t)
    ensures var fl := w.flights[t];
            var (w', outcome) := FaultCommit(w, t);
            var e := Found(w, fl);
            && (outcome == Handled <==> e.rw || e == fl.was) && (outcome == BadAddress <==> outcome != Handled)
            && w'.flights == w.flights - {t}
            && (e.rw || e != fl.was ==> w'.spaces == w.spaces)
            && (e == fl.was ==>
                  w'.spaces == w.spaces[fl.space := w.spaces[fl.space].(ptes := w.spaces[fl.space].ptes[fl.page :=
                                 Pte(fl.copy, true, false, !w.spaces[fl.space].areas[fl.page].exec)])])
            && (outcome == Handled ==> Found(w', fl).rw)
  {
    assert FlightOk(w, w.flights[t]) && PteOk(w, w.flights[t].space, w.flights[t].page);
  }

  /** A new entry that is the very one a handler copied, from a frame of other bytes. */
  ghost predicate Confuses(w: World, s: SpaceId, p: Page, e: Pte, fl: Flight) {
    fl.space == s && fl.page == p && e == fl.was && BytesOf(w, fl.copy) != Zeros()
  }

  /** A fault that gives its page the very entry some handler has copied: that handler will bring old bytes back. */
  ghost predicate Misleads(w: World, op: Op, s: SpaceId) {
    && op.EnterOp? && op.s == s && !op.present && Populates(w, s, op.p, op.write, op.exec, op.given)
    && exists t :: t in w.flights && Confuses(w, s, op.p, NewEntry(w, s, op.p, op.write, op.exec, op.given), w.flights[t])
  }

  /** A stale fault on a page that holds something: it will look empty. */
  ghost predicate Wipes(w: World, op: Op, s: SpaceId) {
    && op.EnterOp? && op.s == s && Stale(w, s, op.p, op.present) && Populates(w, s, op.p, op.write, op.exec, op.given)
    && Seen(w, w.spaces[s], op.p) != Zeros()
  }

  /** What disturbs a space: its own stores and mappings, and two kinds of stale faults. */
  ghost predicate Disturbs(w: World, op: Op, s: SpaceId) { ActsOn(op, s) || Wipes(w, op, s) || Misleads(w, op, s) }

  // What a fault leaves of the entry of a handler that was in flight before.
  lemma EnterFound(w: World, t: ThreadId, s: SpaceId, p: Page, present: bool, write: bool, exec: bool, given: Option<Frame>, fl: Flight)
    requires Inv(w) && Enabled(w, EnterOp(t, s, p, present, write, exec, given)) && FlightOk(w, fl)
    ensures var (w', outcome) := FaultEnter(w, t, s, p, present, write, exec, given);
            && fl.space in w'.spaces && fl.page in w'.spaces[fl.space].ptes
            && (Found(w', fl) == Found(w, fl) || Found(w', fl).rw || (!present && outcome == Handled && fl.space == s && fl.page == p))
  {
    EnterCases(w, t, s, p, present, write, exec, given);
  }

  lemma EnterFlight(w: World, t: ThreadId, s: SpaceId, p: Page, present: bool, write: bool, exec: bool, given: Option<Frame>, t': ThreadId)
    requires Inv(w) && Enabled(w, EnterOp(t, s, p, present, write, exec, given)) && t' in w.flights
    ensures var (w', outcome) := FaultEnter(w, t, s, p, present, write, exec, given);
            var fl := w.flights[t'];
            && t' in w'.flights && w'.flights[t'] == fl && FlightOk(w, fl) && FlightOk(w', fl)
            && BytesOf(w', fl.copy) == BytesOf(w, fl.copy)
            && BytesOf(w', Found(w, fl).frame) == BytesOf(w, Found(w, fl).frame)
            && (Found(w', fl) == Found(w, fl) || Found(w', fl).rw || (!present && outcome == Handled && fl.space == s && fl.page == p))
  {
    var fl := w.flights[t'];
    assert FlightOk(w, fl);
    EnterKeepsInv(w, t, s, p, present, write, exec, given);
    EnterRedirects(w, t, s, p, present, write, exec, given);
    EnterFound(w, t, s, p, present, write, exec, given, fl);
    var w' := FaultEnter(w, t, s, p, present, write, exec, given).0;
    FramesKnown(w, fl.space, fl.page);
    EnterKeepsFlight(w, t, s, p, present, write, exec, given, t');
    assert FlightOk(w', w'.flights[t']);
  }

  lemma EnterKeepsFlight(w: World, t: ThreadId, s: SpaceId, p: Page, present: bool, write: bool, exec: bool, given: Option<Frame>, t': ThreadId)
    requires Enabled(w, EnterOp(t, s, p, present, write, exec, given)) && t' in w.flights
    ensures var w' := FaultEnter(w, t, s, p, present, write, exec, given).0; t' in w'.flights && w'.flights[t'] == w.flights[t']
  {
  }

  lemma EnterKeepsCopies(w: World, t: ThreadId, s: SpaceId, p: Page, present: bool, write: bool, exec: bool,
                         given: Option<Frame>, t': ThreadId)
    requires Inv(w) && Enabled(w, EnterOp(t, s, p, present, write, exec, given))
    requires t' in w.flights && TrueCopy(w, w.flights[t'])
    requires !present && Populates(w, s, p, write, exec, given) ==>
               !Confuses(w, s, p, NewEntry(w, s, p, write, exec, given), w.flights[t'])
    ensures var w' := FaultEnter(w, t, s, p, present, write, exec, given).0;
            t' in w'.flights && w'.flights[t'] == w.flights[t'] && FlightOk(w', w.flights[t']) && TrueCopy(w', w.flights[t'])
  {
    EnterFlight(w, t, s, p, present, write, exec, given, t');
    EnterSeen(w, t, s, p, present, write, exec, given);
    if !present { PopulatesIff(w, t, s, p, write, exec, given); }
  }

  /** A fault changes what a space sees only if it is a stale one of its own that disturbs it. */
  lemma EnterKeepsImages(w: World, t: ThreadId, s: SpaceId, p: Page, present: bool, write: bool, exec: bool,
                         given: Option<Frame>, s': SpaceId)
    requires Inv(w) && Enabled(w, EnterOp(t, s, p, present, write, exec, given)) && s' in w.spaces
    requires !Disturbs(w, EnterOp(t, s, p, present, write, exec, given), s')
    ensures SameImage(w, FaultEnter(w, t, s, p, present, write, exec, given).0, s')
  {
    EnterRedirects(w, t, s, p, present, write, exec, given);
    EnterSeen(w, t, s, p, present, write, exec, given);
    if !present { PopulatesIff(w, t, s, p, write, exec, given); }
    RedirectKeepsImage(w, FaultEnter(w, t, s, p, present, write, exec, given).0, s, p, s');
  }

  lemma NewFlightTrue(w: World, t: ThreadId, s: SpaceId, p: Page, present: bool, write: bool, exec: bool, given: Option<Frame>)
    requires Inv(w) && Enabled(w, EnterOp(t, s, p, present, write, exec, given))
    ensures var w' := FaultEnter(w, t, s, p, present, write, exec, given).0;
            t in w'.flights ==> FlightOk(w', w'.flights[t]) && TrueCopy(w', w'.flights[t])
    ensures forall t' :: t' in FaultEnter(w, t, s, p, present, write, exec, given).0.flights ==> t' in w.flights || t' == t
  {
    EnterKeepsInv(w, t, s, p, present, write, exec, given);
    EnterCases(w, t, s, p, present, write, exec, given);
    if p in w.spaces[s].ptes { FramesKnown(w, s, p); }
  }

  lemma EnterKeepsTrue(w: World, t: ThreadId, s: SpaceId, p: Page, present: bool, write: bool, exec: bool,
                       given: Option<Frame>, s': SpaceId)
    requires Inv(w) && Enabled(w, EnterOp(t, s, p, present, write, exec, given))
    requires !Misleads(w, EnterOp(t, s, p, present, write, exec, given), s') && CopiesTrue(w, s')
    ensures Inv(FaultEnter(w, t, s, p, present, write, exec, given).0)
    ensures CopiesTrue(FaultEnter(w, t, s, p, present, write, exec, given).0, s')
  {
    EnterKeepsInv(w, t, s, p, present, write, exec, given);
    NewFlightTrue(w, t, s, p, present, write, exec, given);
    var w' := FaultEnter(w, t, s, p, present, write, exec, given).0;
    forall t' | t' in w'.flights && w'.flights[t'].space == s' ensures FlightOk(w', w'.flights[t']) && TrueCopy(w', w'.flights[t']) {
      if t' != t {
        EnterKeepsFlight(w, t, s, p, present, write, exec, given, t');
        assert TrueCopy(w, w.flights[t']);
        EnterKeepsCopies(w, t, s, p, present, write, exec, given, t');
      }
    }
  }

  lemma CommitRedirects(w: World, t: ThreadId)
    requires CanCommit(w, t)
    ensures Redirects(w, FaultCommit(w, t).0, w.flights[t].space, w.flights[t].page)
  {
  }

  lemma CommitKeepsImages(w: World, t: ThreadId, s': SpaceId)
    requires Inv(w) && CanCommit(w, t) && s' in w.spaces && CopiesTrue(w, s')
    ensures SameImage(w, FaultCommit(w, t).0, s')
  {
    var fl := w.flights[t];
    CommitRedirects(w, t);
    if fl.space == s' { assert TrueCopy(w, fl); }
    RedirectKeepsImage(w, FaultCommit(w, t).0, fl.space, fl.page, s');
  }

  lemma CommitKeepsTrue(w: World, t: ThreadId, s': SpaceId)
    requires Inv(w) && t in w.flights && CanCommit(w, t) && CopiesTrue(w, s')
    ensures Inv(FaultCommit(w, t).0) && CopiesTrue(FaultCommit(w, t).0, s')
  {
    CommitKeepsInv(w, t);
    var w' := FaultCommit(w, t).0;
    forall t' | t' in w'.flights && w'.flights[t'].space == s' ensures TrueCopy(w', w'.flights[t']) {
      assert FlightOk(w', w'.flights[t']) && TrueCopy(w, w.flights[t']);
    }
  }

  /** A store in one space is invisible in all others. */
  lemma StoreKeepsImages(w: World, s: SpaceId, p: Page, offset: nat, v: Byte, s': SpaceId)
    requires Inv(w) && Enabled(w, StoreOp(s, p, offset, v)) && s' in w.spaces && s' != s
    ensures SameImage(w, Store(w, s, p, offset, v), s')
  {
    var w' := Store(w, s, p, offset, v);
    forall q | q in w.spaces[s'].areas ensures Seen(w', w'.spaces[s'], q) == Seen(w, w.spaces[s'], q) {
      if q in w.spaces[s'].ptes { WritableIsSole(w, s, p, s', q); }
    }
  }

  // Stores, the space's own too, leave the copies true.
  lemma StoreKeepsTrue(w: World, s: SpaceId, p: Page, offset: nat, v: Byte, s': SpaceId)
    requires Inv(w) && Enabled(w, StoreOp(s, p, offset, v)) && CopiesTrue(w, s')
    ensures Inv(Store(w, s, p, offset, v)) && CopiesTrue(Store(w, s, p, offset, v), s')
  {
    StoreKeepsInv(w, s, p, offset, v);
    var w' := Store(w, s, p, offset, v);
    forall t | t in w'.flights && w'.flights[t].space == s' ensures TrueCopy(w', w'.flights[t]) {
      var fl := w.flights[t];
      assert FlightOk(w, fl) && FlightOk(w', fl) && TrueCopy(w, fl);
      CopyIsPrivate(w, t);
      assert (s, p) in Mappers(w, w.spaces[s].ptes[p].frame);
      if (fl.space, fl.page) != (s, p) { WritableIsSole(w, s, p, fl.space, fl.page); }
    }
  }

  /** Fork leaves every image alone, and the child's image is the parent's wherever its entry could be created. */
  lemma CloneImages(w: World, s: SpaceId, child: SpaceId, failed: set<Page>, s': SpaceId)
    requires s in w.spaces && child !in w.spaces && s' in w.spaces
    ensures SameImage(w, Clone(w, s, child, failed), s')
    ensures var w' := Clone(w, s, child, failed);
            && Image(w', child).Keys == Image(w, s).Keys
            && forall p :: p in Image(w, s) ==>
                 Image(w', child)[p] == if p in failed then Zeros() else Image(w, s)[p]
  {
    var w' := Clone(w, s, child, failed);
    forall q | q in w.spaces[s'].areas ensures Seen(w', w'.spaces[s'], q) == Seen(w, w.spaces[s'], q) { }
  }

  lemma StepKeepsImages(w: World, op: Op, s: SpaceId)
    requires Inv(w) && Enabled(w, op) && s in w.spaces && CopiesTrue(w, s) && !Disturbs(w, op, s)
    ensures SameImage(w, Apply(w, op), s)
  {
    match op
    case EnterOp(t, s', p, present, write, exec, given) => EnterKeepsImages(w, t, s', p, present, write, exec, given, s);
    case CommitOp(t) => CommitKeepsInv(w, t); CommitKeepsImages(w, t, s);
    case StoreOp(s', p, offset, v) => StoreKeepsImages(w, s', p, offset, v, s);
    case CloneOp(s', child, failed) => CloneImages(w, s', child, failed, s);
    case _ =>
  }

  // An operation that leaves the handlers of a space, their entries and the bytes alone.
  lemma SameTrue(w: World, w': World, s: SpaceId)
    requires Inv(w) && Inv(w') && CopiesTrue(w, s) && w'.flights == w.flights && w'.bytes == w.bytes
    requires forall t :: t in w.flights && w.flights[t].space == s ==> s in w.spaces && s in w'.spaces && w'.spaces[s].ptes == w.spaces[s].ptes
    ensures CopiesTrue(w', s)
  {
    forall t | t in w'.flights && w'.flights[t].space == s ensures TrueCopy(w', w'.flights[t]) { assert TrueCopy(w, w.flights[t]); }
  }

  lemma OtherEntry(w: World, op: Op, t: ThreadId)
    requires Inv(w) && Enabled(w, op) && !op.EnterOp? && !op.CommitOp? && t in w.flights
    ensures Apply(w, op).flights == w.flights && FlightOk(w, w.flights[t])
    ensures w.flights[t].space in Apply(w, op).spaces
    ensures Apply(w, op).spaces[w.flights[t].space].ptes == w.spaces[w.flights[t].space].ptes
  {
    assert FlightOk(w, w.flights[t]);
  }

  lemma OthersTrue(w: World, op: Op, s: SpaceId)
    requires Inv(w) && Enabled(w, op) && !op.EnterOp? && !op.CommitOp? && !op.StoreOp? && Inv(Apply(w, op)) && CopiesTrue(w, s)
    ensures CopiesTrue(Apply(w, op), s)
  {
    var w' := Apply(w, op);
    assert w'.flights == w.flights && w'.bytes == w.bytes;
    forall t | t in w.flights && w.flights[t].space == s ensures s in w.spaces && s in w'.spaces && w'.spaces[s].ptes == w.spaces[s].ptes {
      OtherEntry(w, op, t);
    }
    SameTrue(w, w', s);
  }

  /** Whatever is done, to the space itself too, the private copies of its handlers stay true but for a misleading fault. */
  lemma StepKeepsTrue(w: World, op: Op, s: SpaceId)
    requires Inv(w) && Enabled(w, op) && CopiesTrue(w, s) && !Misleads(w, op, s)
    ensures Inv(Apply(w, op)) && CopiesTrue(Apply(w, op), s)
  {
    StepKeepsInv(w, op);
    match op
    case EnterOp(t, s', p, present, write, exec, given) => EnterKeepsTrue(w, t, s', p, present, write, exec, given, s);
    case CommitOp(t) => CommitKeepsInv(w, t); CommitKeepsTrue(w, t, s);
    case StoreOp(s', p, offset, v) => StoreKeepsTrue(w, s', p, offset, v, s);
    case _ => OthersTrue(w, op, s);
  }

  // ---- Whole runs ----------------------------------------------------------------------------

  ghost predicate IsRun(w: World, ops: seq<Op>)
    requires Inv(w)
    decreases |ops|
  {
    ops == [] || (Enabled(w, ops[0]) && (StepKeepsInv(w, ops[0]); IsRun(Apply(w, ops[0]), ops[1..])))
  }

  ghost function Run(w: World, ops: seq<Op>): World
    requires Inv(w) && IsRun(w, ops)
    decreases |ops|
  {
    if ops == [] then w else StepKeepsInv(w, ops[0]); Run(Apply(w, ops[0]), ops[1..])
  }

  /** Over every run, stale faults included: counts are exact, and a writable entry is the only reference to its frame. */
  lemma {:induction false} RunKeepsInv(w: World, ops: seq<Op>)
    requires Inv(w) && IsRun(w, ops)
    ensures Inv(Run(w, ops))
    decreases |ops|
  {
    if ops != [] {
      StepKeepsInv(w, ops[0]);
      RunKeepsInv(Apply(w, ops[0]), ops[1..]);
    }
  }

  /** Nothing in the run disturbs the space. */
  ghost predicate Undisturbed(w: World, ops: seq<Op>, s: SpaceId)
    requires Inv(w) && IsRun(w, ops)
    decreases |ops|
  {
    ops == [] || (!Disturbs(w, ops[0], s) && (StepKeepsInv(w, ops[0]); Undisturbed(Apply(w, ops[0]), ops[1..], s)))
  }

  /** Over every run that does not disturb a space, it sees the same memory throughout. */
  lemma {:induction false} RunIsolation(w: World, ops: seq<Op>, s: SpaceId)
    requires Inv(w) && IsRun(w, ops) && s in w.spaces && CopiesTrue(w, s) && Undisturbed(w, ops, s)
    ensures SameImage(w, Run(w, ops), s)
    decreases |ops|
  {
    if ops != [] {
      StepKeepsTrue(w, ops[0], s);
      StepKeepsImages(w, ops[0], s);
      RunIsolation(Apply(w, ops[0]), ops[1..], s);
    }
  }

  /** What a child is given: the parent's image, with zeros on the pages whose entry could not be created. */
  ghost function Given(image: map<Page, seq<Byte>>, failed: set<Page>): map<Page, seq<Byte>> {
    map p | p in image :: if p in failed then Zeros() else image[p]
  }

  lemma CloneGives(w: World, s: SpaceId, child: SpaceId, failed: set<Page>)
    requires s in w.spaces && child !in w.spaces
    ensures child in Clone(w, s, child, failed).spaces && Image(Clone(w, s, child, failed), child) == Given(Image(w, s), failed)
  {
    CloneImages(w, s, child, failed, s);
  }

  /** A fork is a snapshot: whatever everybody else does, the child keeps the parent's memory of that moment. */
  lemma ForkIsSnapshot(w: World, s: SpaceId, child: SpaceId, failed: set<Page>, ops: seq<Op>)
    requires Inv(w) && Quiet(w, s) && child !in w.spaces
    requires var w' := Clone(w, s, child, failed); Inv(w') && IsRun(w', ops) && Undisturbed(w', ops, child)
    ensures var w' := Run(Clone(w, s, child, failed), ops); child in w'.spaces && Image(w', child) == Given(Image(w, s), failed)
  {
    var w' := Clone(w, s, child, failed);
    CloneGives(w, s, child, failed);
    NoHandlers(w, w', child);
    RunIsolation(w', ops, child);
  }

  lemma NoHandlers(w: World, w': World, s: SpaceId)
    requires Inv(w) && Inv(w') && s !in w.spaces && w'.flights == w.flights
    ensures CopiesTrue(w', s) && Settled(w', s)
  {
    forall t | t in w'.flights ensures w'.flights[t].space != s { assert FlightOk(w, w.flights[t]); }
  }

  // ---- From the start ------------------------------------------------------------------------

  /** Before the first address space: the zero page and nothing else. */
  function Start(zero: Frame): World { World(zero, map[], map[], map[], map[], map[]) }

  lemma StartInv(zero: Frame)
    ensures Inv(Start(zero))
  {
    forall f ensures Mappers(Start(zero), f) == {} && Copies(Start(zero), f) == {} { }
  }

  ghost predicate IsHistory(zero: Frame, ops: seq<Op>) {
    StartInv(zero);
    IsRun(Start(zero), ops)
  }

  ghost function After(zero: Frame, ops: seq<Op>): (w: World)
    requires IsHistory(zero, ops)
    ensures Inv(w)
  {
    StartInv(zero);
    RunKeepsInv(Start(zero), ops);
    Run(Start(zero), ops)
  }

  /** No fault of the run misleads a handler of the space. */
  ghost predicate Unmisled(w: World, ops: seq<Op>, s: SpaceId)
    requires Inv(w) && IsRun(w, ops)
    decreases |ops|
  {
    ops == [] || (!Misleads(w, ops[0], s) && (StepKeepsInv(w, ops[0]); Unmisled(Apply(w, ops[0]), ops[1..], s)))
  }

  lemma {:induction false} RunKeepsTrue(w: World, ops: seq<Op>, s: SpaceId)
    requires Inv(w) && IsRun(w, ops) && CopiesTrue(w, s) && Unmisled(w, ops, s)
    ensures Inv(Run(w, ops)) && CopiesTrue(Run(w, ops), s)
    decreases |ops|
  {
    if ops != [] {
      StepKeepsTrue(w, ops[0], s);
      RunKeepsTrue(Apply(w, ops[0]), ops[1..], s);
    }
  }

  /**
   Isolation in the life of the kernel: from any moment it can reach without a misleading fault of the space, the
   space sees the same memory for as long as nothing disturbs it.
   */
  lemma Isolation(zero: Frame, before: seq<Op>, ops: seq<Op>, s: SpaceId)
    requires IsHistory(zero, before) && (StartInv(zero); Unmisled(Start(zero), before, s))
    requires var w := After(zero, before); s in w.spaces && IsRun(w, ops) && Undisturbed(w, ops, s)
    ensures SameImage(After(zero, before), Run(After(zero, before), ops), s)
  {
    StartInv(zero);
    RunKeepsTrue(Start(zero), before, s);
    RunIsolation(After(zero, before), ops, s);
  }

  /** Two entries, one of them writable, that map different frames. */
  predicate Apart(w: World, s: SpaceId, p: Page, s': SpaceId, p': Page)
    requires s in w.spaces && p in w.spaces[s].ptes && s' in w.spaces && p' in w.spaces[s'].ptes
  {
    (s, p) != (s', p') && w.spaces[s].ptes[p].rw ==> w.spaces[s].ptes[p].frame != w.spaces[s'].ptes[p'].frame
  }

  /** In every state the kernel can reach: counts are exact, no frame behind a writable entry has another entry, and a
      handler's copy is its own. */
  lemma Safety(zero: Frame, ops: seq<Op>)
    requires IsHistory(zero, ops)
    ensures var w := After(zero, ops);
            && Inv(w) && w.zero == zero
            && (forall f :: f != zero ==> RefsOf(w, f) == |Mappers(w, f)| + |Copies(w, f)| + LostOf(w, f))
            && (forall s, p, s', p' :: s in w.spaces && p in w.spaces[s].ptes && s' in w.spaces && p' in w.spaces[s'].ptes ==>
                  Apart(w, s, p, s', p'))
            && (forall t :: t in w.flights ==> Mappers(w, w.flights[t].copy) == {} && Copies(w, w.flights[t].copy) == {t})
  {
    StartInv(zero);
    RunKeepsInv(Start(zero), ops);
    RunZero(Start(zero), ops);
    var w := After(zero, ops);
    forall f | f != zero ensures RefsOf(w, f) == |Mappers(w, f)| + |Copies(w, f)| + LostOf(w, f) { assert Counted(w, f); }
    forall s, p, s', p' | s in w.spaces && p in w.spaces[s].ptes && s' in w.spaces && p' in w.spaces[s'].ptes
      ensures Apart(w, s, p, s', p')
    {
      if (s, p) != (s', p') && w.spaces[s].ptes[p].rw { WritableIsSole(w, s, p, s', p'); }
    }
    forall t | t in w.flights ensures Mappers(w, w.flights[t].copy) == {} && Copies(w, w.flights[t].copy) == {t} { CopyIsPrivate(w, t); }
  }

  lemma {:induction false} RunZero(w: World, ops: seq<Op>)
    requires Inv(w) && IsRun(w, ops)
    ensures Run(w, ops).zero == w.zero
    decreases |ops|
  {
    if ops != [] {
      StepKeepsInv(w, ops[0]);
      RunZero(Apply(w, ops[0]), ops[1..]);
    }
  }

  // ---- A stale error code --------------------------------------------------------------------

  /**
   The not-present branch writes the entry without looking at it. When another thread has populated the page since the
   error code was raised, this decides what happens: a reference is lost if and only if the page had a frame of its
   own, its space sees something else if and only if the page was not all zeros, and handlers in flight on the page go
   on to swap or give up in order if and only if they find the new entry writable or as it was.
   */
  lemma StaleNotPresentFault(w: World, t: ThreadId, s: SpaceId, p: Page, write: bool, exec: bool, given: Option<Frame>)
    requires Inv(w) && Enabled(w, EnterOp(t, s, p, false, write, exec, given))
    requires Populates(w, s, p, write, exec, given)
    ensures var w' := FaultEnter(w, t, s, p, false, write, exec, given).0;
            var sp := w.spaces[s];
            && Inv(w')
            && (w'.lost == w.lost <==> p !in sp.ptes || sp.ptes[p].frame == w.zero)
            && (SameImage(w, w', s) <==> Seen(w, sp, p) == Zeros())
            && var e := NewEntry(w, s, p, write, exec, given);
            && (Settled(w, s) ==> (Settled(w', s) <==> AllSettle(w, s, p, e)))
            && (CopiesTrue(w, s) ==> (CopiesTrue(w', s) <==> forall t' :: t' in w.flights ==> !Confuses(w, s, p, e, w.flights[t'])))
  {
    var w' := FaultEnter(w, t, s, p, false, write, exec, given).0;
    EnterKeepsInv(w, t, s, p, false, write, exec, given);
    StaleImage(w, t, s, p, write, exec, given);
    if Settled(w, s) { StaleSettles(w, t, s, p, write, exec, given); }
    if CopiesTrue(w, s) { StaleCopies(w, t, s, p, write, exec, given); }
    if p in w.spaces[s].ptes && w.spaces[s].ptes[p].frame != w.zero {
      var f := w.spaces[s].ptes[p].frame;
      assert LostOf(w', f) == LostOf(w, f) + 1;
    }
  }

  predicate SettlesFor(e: Pte, fl: Flight) { e.rw || e == fl.was }

  /** Each handler on the page finds the new entry writable or equal to the one it copied. */
  ghost predicate AllSettle(w: World, s: SpaceId, p: Page, e: Pte) {
    forall t :: t in w.flights && w.flights[t].space == s && w.flights[t].page == p ==> SettlesFor(e, w.flights[t])
  }

  lemma StaleImage(w: World, t: ThreadId, s: SpaceId, p: Page, write: bool, exec: bool, given: Option<Frame>)
    requires Inv(w) && Enabled(w, EnterOp(t, s, p, false, write, exec, given))
    requires Populates(w, s, p, write, exec, given)
    ensures SameImage(w, FaultEnter(w, t, s, p, false, write, exec, given).0, s) <==> Seen(w, w.spaces[s], p) == Zeros()
  {
    var w' := FaultEnter(w, t, s, p, false, write, exec, given).0;
    EnterSeen(w, t, s, p, false, write, exec, given);
    EnterRedirects(w, t, s, p, false, write, exec, given);
    if Seen(w, w.spaces[s], p) == Zeros() {
      RedirectKeepsImage(w, w', s, p, s);
    } else {
      assert Image(w', s)[p] != Image(w, s)[p];
    }
  }

  lemma StaleFlight(w: World, t: ThreadId, s: SpaceId, p: Page, write: bool, exec: bool, given: Option<Frame>, t': ThreadId)
    requires Inv(w) && Enabled(w, EnterOp(t, s, p, false, write, exec, given)) && t' in w.flights && w.flights[t'].space == s
    requires FlightOk(w, w.flights[t']) && Settles(w, w.flights[t']) && Populates(w, s, p, write, exec, given)
    ensures var w' := FaultEnter(w, t, s, p, false, write, exec, given).0;
            var fl := w.flights[t'];
            && t' in w'.flights && w'.flights[t'] == fl && FlightOk(w', fl) && p in w'.spaces[s].ptes
            && (Settles(w', fl) <==> (fl.page == p ==> SettlesFor(NewEntry(w, s, p, write, exec, given), fl)))
  {
    EnterFlight(w, t, s, p, false, write, exec, given, t');
  }

  lemma StaleSettles(w: World, t: ThreadId, s: SpaceId, p: Page, write: bool, exec: bool, given: Option<Frame>)
    requires Inv(w) && Enabled(w, EnterOp(t, s, p, false, write, exec, given)) && Settled(w, s)
    requires Populates(w, s, p, write, exec, given)
    ensures var w' := FaultEnter(w, t, s, p, false, write, exec, given).0;
            Inv(w') && (Settled(w', s) <==> AllSettle(w, s, p, NewEntry(w, s, p, write, exec, given)))
  {
    EnterKeepsInv(w, t, s, p, false, write, exec, given);
    var w' := FaultEnter(w, t, s, p, false, write, exec, given).0;
    var e := NewEntry(w, s, p, write, exec, given);
    assert w'.flights == w.flights;
    forall t' | t' in w.flights && w.flights[t'].space == s
      ensures FlightOk(w', w.flights[t']) && (Settles(w', w.flights[t']) <==> (w.flights[t'].page == p ==> SettlesFor(e, w.flights[t'])))
    {
      assert Settles(w, w.flights[t']);
      StaleFlight(w, t, s, p, write, exec, given, t');
    }
  }

  lemma StaleCopy(w: World, t: ThreadId, s: SpaceId, p: Page, write: bool, exec: bool, given: Option<Frame>, t': ThreadId)
    requires Inv(w) && Enabled(w, EnterOp(t, s, p, false, write, exec, given)) && Populates(w, s, p, write, exec, given)
    requires t' in w.flights && FlightOk(w, w.flights[t']) && TrueCopy(w, w.flights[t'])
    ensures var w' := FaultEnter(w, t, s, p, false, write, exec, given).0;
            FlightOk(w', w.flights[t']) && (TrueCopy(w', w.flights[t']) <==> !Confuses(w, s, p, NewEntry(w, s, p, write, exec, given), w.flights[t']))
  {
    EnterFlight(w, t, s, p, false, write, exec, given, t');
    EnterSeen(w, t, s, p, false, write, exec, given);
    if !Confuses(w, s, p, NewEntry(w, s, p, write, exec, given), w.flights[t']) {
      EnterKeepsCopies(w, t, s, p, false, write, exec, given, t');
    }
  }

  lemma StaleCopies(w: World, t: ThreadId, s: SpaceId, p: Page, write: bool, exec: bool, given: Option<Frame>)
    requires Inv(w) && Enabled(w, EnterOp(t, s, p, false, write, exec, given)) && CopiesTrue(w, s)
    requires Populates(w, s, p, write, exec, given)
    ensures Inv(FaultEnter(w, t, s, p, false, write, exec, given).0)
    ensures var w' := FaultEnter(w, t, s, p, false, write, exec, given).0;
            var e := NewEntry(w, s, p, write, exec, given);
            CopiesTrue(w', s) <==> forall t' :: t' in w.flights ==> !Confuses(w, s, p, e, w.flights[t'])
  {
    EnterKeepsInv(w, t, s, p, false, write, exec, given);
    var w' := FaultEnter(w, t, s, p, false, write, exec, given).0;
    var e := NewEntry(w, s, p, write, exec, given);
    assert w'.flights == w.flights;
    forall t' | t' in w.flights && w.flights[t'].space == s
      ensures FlightOk(w', w.flights[t']) && (TrueCopy(w', w.flights[t']) <==> !Confuses(w, s, p, e, w.flights[t']))
    {
      assert TrueCopy(w, w.flights[t']);
      StaleCopy(w, t, s, p, write, exec, given, t');
    }
  }

  /** A stale fault that leaves some handler on its page with a third value. */
  ghost predicate Unsettles(w: World, op: Op, s: SpaceId) {
    && op.EnterOp? && op.s == s && !op.present && Populates(w, s, op.p, op.write, op.exec, op.given)
    && !AllSettle(w, s, op.p, NewEntry(w, s, op.p, op.write, op.exec, op.given))
  }

  // The entry of a handler stays, or becomes writable.
  ghost predicate EntryKept(w: World, w': World, fl: Flight)
    requires FlightOk(w, fl) && FlightOk(w', fl)
  {
    Found(w', fl) == Found(w, fl) || Found(w', fl).rw
  }

  lemma PresentSettled(w: World, t: ThreadId, s: SpaceId, p: Page, present: bool, write: bool, exec: bool, given: Option<Frame>, s': SpaceId)
    requires Inv(w) && Enabled(w, EnterOp(t, s, p, present, write, exec, given)) && Settled(w, s')
    requires present || s' != s || FaultEnter(w, t, s, p, present, write, exec, given).1 != Handled
    ensures Inv(FaultEnter(w, t, s, p, present, write, exec, given).0) && Settled(FaultEnter(w, t, s, p, present, write, exec, given).0, s')
  {
    EnterKeepsInv(w, t, s, p, present, write, exec, given);
    EnterCases(w, t, s, p, present, write, exec, given);
    var w' := FaultEnter(w, t, s, p, present, write, exec, given).0;
    forall t' | t' in w'.flights && w'.flights[t'].space == s' ensures FlightOk(w', w'.flights[t']) && Settles(w', w'.flights[t']) {
      assert FlightOk(w', w'.flights[t']);
      if t' in w.flights {
        assert Settles(w, w.flights[t']);
        EnterFlight(w, t, s, p, present, write, exec, given, t');
      }
    }
  }

  lemma CommitEntry(w: World, t: ThreadId, t': ThreadId)
    requires Inv(w) && CanCommit(w, t) && t' in w.flights && t' != t
    ensures Inv(FaultCommit(w, t).0) && t' in FaultCommit(w, t).0.flights && FaultCommit(w, t).0.flights[t'] == w.flights[t']
    ensures FlightOk(w, w.flights[t']) && FlightOk(FaultCommit(w, t).0, w.flights[t']) && EntryKept(w, FaultCommit(w, t).0, w.flights[t'])
  {
    CommitKeepsInv(w, t);
    assert FlightOk(w, w.flights[t']) && FlightOk(FaultCommit(w, t).0, FaultCommit(w, t).0.flights[t']);
  }

  // A handler of the space among the other operations.
  lemma OthersSettled(w: World, op: Op, s: SpaceId)
    requires Inv(w) && Enabled(w, op) && Settled(w, s) && !op.EnterOp?
    ensures Inv(Apply(w, op)) && Settled(Apply(w, op), s)
  {
    StepKeepsInv(w, op);
    var w' := Apply(w, op);
    forall t | t in w'.flights && w'.flights[t].space == s ensures FlightOk(w', w'.flights[t]) && Settles(w', w'.flights[t]) {
      assert FlightOk(w', w'.flights[t]);
      if op.CommitOp? {
        CommitKeepsInv(w, op.t);
        CommitEntry(w, op.t, t);
      } else {
        OtherEntry(w, op, t);
      }
      assert Settles(w, w.flights[t]);
    }
  }

  /** A step leaves some handler of the space with a third value if and only if it is a stale fault that does so. */
  lemma StepSettles(w: World, op: Op, s: SpaceId)
    requires Inv(w) && Enabled(w, op) && Settled(w, s)
    ensures Inv(Apply(w, op)) && (Settled(Apply(w, op), s) <==> !Unsettles(w, op, s))
  {
    match op
    case EnterOp(t, s', p, present, write, exec, given) =>
      if !present { PopulatesIff(w, t, s', p, write, exec, given); }
      if present || s' != s || !Populates(w, s, p, write, exec, given) {
        PresentSettled(w, t, s', p, present, write, exec, given, s);
      } else {
        StaleSettles(w, t, s, p, write, exec, given);
      }
    case _ => OthersSettled(w, op, s);
  }

  /** No fault of the run leaves a handler of the space with a third value. */
  ghost predicate Unruffled(w: World, ops: seq<Op>, s: SpaceId)
    requires Inv(w) && IsRun(w, ops)
    decreases |ops|
  {
    ops == [] || (!Unsettles(w, ops[0], s) && (StepKeepsInv(w, ops[0]); Unruffled(Apply(w, ops[0]), ops[1..], s)))
  }

  lemma {:induction false} RunSettles(w: World, ops: seq<Op>, s: SpaceId)
    requires Inv(w) && IsRun(w, ops) && Settled(w, s) && Unruffled(w, ops, s)
    ensures Inv(Run(w, ops)) && Settled(Run(w, ops), s)
    decreases |ops|
  {
    if ops != [] {
      StepSettles(w, ops[0], s);
      RunSettles(Apply(w, ops[0]), ops[1..], s);
    }
  }

  /** In the life of the kernel: as long as no fault of the space leaves a handler with a third value, its swaps never fail. */
  lemma SwapsSucceed(zero: Frame, ops: seq<Op>, t: ThreadId)
    requires IsHistory(zero, ops) && t in After(zero, ops).flights
    requires (StartInv(zero); Unruffled(Start(zero), ops, After(zero, ops).flights[t].space))
    ensures CanCommit(After(zero, ops), t) && FaultCommit(After(zero, ops), t).1 == Handled
  {
    var w := After(zero, ops);
    StartInv(zero);
    RunSettles(Start(zero), ops, w.flights[t].space);
    CommitKeepsInv(w, t);
    assert FlightOk(w, w.flights[t]) && Settles(w, w.flights[t]);
  }

  // ---- Writes go through ---------------------------------------------------------------------

  /** What the processor and the kernel do about a write by one thread with nobody in between. */
  ghost function WriteFault(w: World, t: ThreadId, s: SpaceId, p: Page, given: Option<Frame>): (World, Outcome)
    requires Inv(w) && s in w.spaces && Enabled(w, EnterOp(t, s, p, p in w.spaces[s].ptes, true, false, given))
  {
    if p in w.spaces[s].ptes then FaultAlone(w, t, s, p, given) else FaultEnter(w, t, s, p, false, true, false, given)
  }

  /** The fault needs a frame, unless its page has one for itself. */
  predicate HasFrame(w: World, s: SpaceId, p: Page, given: Option<Frame>)
    requires s in w.spaces
  {
    given.Some? || (p in w.spaces[s].ptes && Sole(w, s, p))
  }

  /** A present write fault that nobody disturbs. */
  lemma AloneIff(w: World, t: ThreadId, s: SpaceId, p: Page, given: Option<Frame>)
    requires Inv(w) && Enabled(w, EnterOp(t, s, p, true, true, false, given))
    ensures p in w.spaces[s].areas
    ensures var (w', outcome) := FaultAlone(w, t, s, p, given);
            var (a, was) := (w.spaces[s].areas[p], w.spaces[s].ptes[p]);
            && (outcome == Handled <==> Allows(a, true, false) && HasFrame(w, s, p, given))
            && (outcome == NoAccess <==> !Allows(a, true, false))
            && (outcome == NoMemory <==> Allows(a, true, false) && !HasFrame(w, s, p, given))
            && (outcome != Handled ==> w' == w)
            && (outcome == Handled ==>
                  w'.spaces == w.spaces[s := w.spaces[s].(ptes := w.spaces[s].ptes[p :=
                                 if Sole(w, s, p) then Pte(was.frame, true, was.cow, was.nx) else Pte(given.value, true, false, !a.exec)])])
  {
    PresentIff(w, t, s, p, true, false, given);
    var (w', outcome) := FaultEnter(w, t, s, p, true, true, false, given);
    EnterKeepsInv(w, t, s, p, true, true, false, given);
    if outcome == Copying {
      assert !w.spaces[s].ptes[p].rw by { assert PteOk(w, s, p); }
      CommitIff(w', t);
    }
  }

  /**
   A write succeeds if and only if the area of its page allows it and a frame is there; then the page is writable, but for
   a page populated just now in an area that catches all writes, where the next fault makes it so without a frame.
   */
  lemma WriteIff(w: World, t: ThreadId, s: SpaceId, p: Page, given: Option<Frame>)
    requires Inv(w) && s in w.spaces && Enabled(w, EnterOp(t, s, p, p in w.spaces[s].ptes, true, false, given))
    ensures var (w', outcome) := WriteFault(w, t, s, p, given);
            var sp := w.spaces[s];
            && (outcome == Handled <==> p in sp.areas && Allows(sp.areas[p], true, false) && HasFrame(w, s, p, given))
            && (outcome == Handled ==>
                  && Inv(w') && s in w'.spaces && p in w'.spaces[s].ptes && w'.spaces[s].areas == sp.areas
                  && (w'.spaces[s].ptes[p].rw <==> p in sp.ptes || sp.areas[p].write)
                  && (!w'.spaces[s].ptes[p].rw ==> p in w'.spaces[s].ptes && Sole(w', s, p)))
  {
    if p in w.spaces[s].ptes {
      AloneIff(w, t, s, p, given);
      AloneKeepsInv(w, t, s, p, given);
    } else {
      PopulatesIff(w, t, s, p, true, false, given);
      EnterKeepsInv(w, t, s, p, false, true, false, given);
    }
  }

  lemma AloneKeepsInv(w: World, t: ThreadId, s: SpaceId, p: Page, given: Option<Frame>)
    requires Inv(w) && Enabled(w, EnterOp(t, s, p, true, true, false, given))
    ensures Inv(FaultAlone(w, t, s, p, given).0)
  {
    var (w', outcome) := FaultEnter(w, t, s, p, true, true, false, given);
    EnterKeepsInv(w, t, s, p, true, true, false, given);
    if outcome == Copying { CommitKeepsInv(w', t); }
  }

  /** What an area is after a fork: as it was, and caught where it can be written. */
  predicate Forked(a: Area, b: Area) { b.write == a.write && b.exec == a.exec && (b.cow <==> a.cow || a.write) }

  /** Both sides of a fork keep every right of every page, and every entry is read-only on the same frame. */
  lemma ForkRights(w: World, s: SpaceId, child: SpaceId, failed: set<Page>, side: SpaceId)
    requires s in w.spaces && child !in w.spaces && side in {s, child}
    ensures var (sp, w') := (w.spaces[s], Clone(w, s, child, failed));
            && side in w'.spaces && w'.spaces.Keys == w.spaces.Keys + {child}
            && w'.spaces[side].areas.Keys == sp.areas.Keys
            && (forall p :: p in sp.areas ==> Forked(sp.areas[p], w'.spaces[side].areas[p]))
            && w'.spaces[side].ptes.Keys == sp.ptes.Keys - (if side == child then failed else {})
            && (forall p :: p in w'.spaces[side].ptes ==>
                  w'.spaces[side].ptes[p] == Pte(sp.ptes[p].frame, false, sp.ptes[p].cow || sp.ptes[p].rw, sp.ptes[p].nx))
  {
  }

  /** What could be written before a fork can be written after it, by parent and child, if there is a frame. */
  lemma WriteAfterFork(w: World, s: SpaceId, child: SpaceId, failed: set<Page>, side: SpaceId, t: ThreadId, p: Page, given: Option<Frame>)
    requires Inv(w) && Enabled(w, CloneOp(s, child, failed)) && side in {s, child}
    requires p in w.spaces[s].areas && Allows(w.spaces[s].areas[p], true, false) && t !in w.flights
    requires var w1 := Clone(w, s, child, failed); given.Some? && FreshFrame(w1, given)
    ensures var w1 := Clone(w, s, child, failed);
            && Inv(w1) && side in w1.spaces && Enabled(w1, EnterOp(t, side, p, p in w1.spaces[side].ptes, true, false, given))
            && var (w2, outcome) := WriteFault(w1, t, side, p, given);
               && outcome == Handled && side in w2.spaces && p in w2.spaces[side].ptes
               && (w.spaces[s].areas[p].write ==> w2.spaces[side].ptes[p].rw)
  {
    StepKeepsInv(w, CloneOp(s, child, failed));
    ForkRights(w, s, child, failed, side);
    var w1 := Clone(w, s, child, failed);
    assert Forked(w.spaces[s].areas[p], w1.spaces[side].areas[p]);
    WriteIff(w1, t, side, p, given);
  }

  // ---- Fork by copying -----------------------------------------------------------------------

  /** What a page is to its process: what it may do there, and the bytes. */
  datatype Cell = Cell(write: bool, exec: bool, bytes: seq<Byte>)

  type View = map<Page, Cell>

  function CellOf(w: World, sp: Space, p: Page): Cell
    requires p in sp.areas
  {
    Cell(sp.areas[p].write || sp.areas[p].cow, sp.areas[p].exec, Seen(w, sp, p))
  }

  function ViewOf(w: World, s: SpaceId): View
    requires s in w.spaces
  {
    map p | p in w.spaces[s].areas :: CellOf(w, w.spaces[s], p)
  }

  function Views(w: World): map<SpaceId, View> { map s | s in w.spaces :: ViewOf(w, s) }

  /** The same life without sharing: fork copies all memory, faults do nothing, a store changes one byte of one space. */
  function PlainStep(v: map<SpaceId, View>, op: Op): map<SpaceId, View> {
    match op
    case CreateOp(s) => v[s := map[]]
    case MapOp(s, pages, a) =>
      if s in v then v[s := v[s] + map p | p in pages :: Cell(a.write || a.cow, a.exec, Zeros())] else v
    case EnterOp(_, _, _, _, _, _, _) => v
    case CommitOp(_) => v
    case StoreOp(s, p, offset, b) =>
      if s in v && p in v[s] && offset < |v[s][p].bytes|
      then v[s := v[s][p := v[s][p].(bytes := v[s][p].bytes[offset := b])]] else v
    case UnmapOp(s, pages) => if s in v then v[s := v[s] - pages] else v
    case CloneOp(s, child, failed) =>
      if s in v then v[child := map p | p in v[s] :: if p in failed then v[s][p].(bytes := Zeros()) else v[s][p]] else v
    case DestroyOp(s) => v - {s}
  }

  function PlainRun(v: map<SpaceId, View>, ops: seq<Op>): map<SpaceId, View>
    decreases |ops|
  {
    if ops == [] then v else PlainRun(PlainStep(v, ops[0]), ops[1..])
  }

  /** The rights of a space stay. */
  ghost predicate SameRights(w: World, w': World, s: SpaceId) {
    && s in w.spaces && s in w'.spaces && w'.spaces[s].areas.Keys == w.spaces[s].areas.Keys
    && forall p :: p in w.spaces[s].areas ==>
         && w'.spaces[s].areas[p].exec == w.spaces[s].areas[p].exec
         && (w'.spaces[s].areas[p].write || w'.spaces[s].areas[p].cow) == (w.spaces[s].areas[p].write || w.spaces[s].areas[p].cow)
  }

  lemma StepKeepsRights(w: World, op: Op, s: SpaceId)
    requires Inv(w) && Enabled(w, op) && s in w.spaces && !ActsOn(op, s)
    ensures SameRights(w, Apply(w, op), s)
  {
    match op
    case EnterOp(t, s', p, present, write, exec, given) => EnterRedirects(w, t, s', p, present, write, exec, given);
    case CommitOp(t) => CommitKeepsInv(w, t); CommitRedirects(w, t);
    case CloneOp(s', child, failed) => if s == s' { ForkRights(w, s, child, failed, s); }
    case _ =>
  }

  lemma SameView(w: World, w': World, s: SpaceId)
    requires SameImage(w, w', s) && SameRights(w, w', s)
    ensures ViewOf(w', s) == ViewOf(w, s)
  {
    forall p | p in w.spaces[s].areas ensures Seen(w', w'.spaces[s], p) == Seen(w, w.spaces[s], p) {
      assert Image(w', s)[p] == Image(w, s)[p];
    }
  }

  /** No fault of the step wipes a page or misleads a handler, in any space. */
  ghost predicate Gentle(w: World, op: Op) { op.EnterOp? ==> !Wipes(w, op, op.s) && !Misleads(w, op, op.s) }

  ghost predicate AllTrue(w: World)
    requires Inv(w)
  {
    forall s :: s in w.spaces ==> CopiesTrue(w, s)
  }

  lemma GentleKeepsView(w: World, op: Op, s: SpaceId)
    requires Inv(w) && Enabled(w, op) && Gentle(w, op) && s in w.spaces && CopiesTrue(w, s) && !ActsOn(op, s)
    ensures s in Apply(w, op).spaces && ViewOf(Apply(w, op), s) == ViewOf(w, s)
  {
    StepKeepsImages(w, op, s);
    StepKeepsRights(w, op, s);
    SameView(w, Apply(w, op), s);
  }

  lemma StoreView(w: World, s: SpaceId, p: Page, offset: nat, b: Byte)
    requires Inv(w) && Enabled(w, StoreOp(s, p, offset, b))
    ensures p in ViewOf(w, s) && offset < |ViewOf(w, s)[p].bytes|
    ensures ViewOf(Store(w, s, p, offset, b), s)
         == ViewOf(w, s)[p := ViewOf(w, s)[p].(bytes := ViewOf(w, s)[p].bytes[offset := b])]
  {
    var w' := Store(w, s, p, offset, b);
    assert PteOk(w, s, p);
    forall q | q in w.spaces[s].areas && q != p ensures Seen(w', w'.spaces[s], q) == Seen(w, w.spaces[s], q) {
      if q in w.spaces[s].ptes { WritableIsSole(w, s, p, s, q); }
    }
  }

  lemma CloneCell(w: World, s: SpaceId, child: SpaceId, failed: set<Page>, p: Page)
    requires s in w.spaces && child !in w.spaces && p in w.spaces[s].areas
    ensures var (sp, w') := (w.spaces[s], Clone(w, s, child, failed));
            && child in w'.spaces && p in w'.spaces[child].areas
            && CellOf(w', w'.spaces[child], p) == if p in failed then CellOf(w, sp, p).(bytes := Zeros()) else CellOf(w, sp, p)
  {
    var w' := Clone(w, s, child, failed);
    ForkRights(w, s, child, failed, child);
    assert Forked(w.spaces[s].areas[p], w'.spaces[child].areas[p]);
  }

  lemma CloneView(w: World, s: SpaceId, child: SpaceId, failed: set<Page>)
    requires s in w.spaces && child !in w.spaces
    ensures child in Clone(w, s, child, failed).spaces
    ensures ViewOf(Clone(w, s, child, failed), child)
         == map p | p in ViewOf(w, s) :: if p in failed then ViewOf(w, s)[p].(bytes := Zeros()) else ViewOf(w, s)[p]
  {
    var w' := Clone(w, s, child, failed);
    ForkRights(w, s, child, failed, child);
    forall p | p in w.spaces[s].areas
      ensures CellOf(w', w'.spaces[child], p)
           == if p in failed then CellOf(w, w.spaces[s], p).(bytes := Zeros()) else CellOf(w, w.spaces[s], p)
    {
      CloneCell(w, s, child, failed, p);
    }
  }

  lemma MapView(w: World, s: SpaceId, pages: set<Page>, a: Area)
    requires Inv(w) && Enabled(w, MapOp(s, pages, a))
    ensures ViewOf(MapArea(w, s, pages, a), s) == ViewOf(w, s) + map p | p in pages :: Cell(a.write || a.cow, a.exec, Zeros())
  {
    forall p | p in w.spaces[s].ptes ensures p in w.spaces[s].areas { assert PteOk(w, s, p); }
  }

  lemma UnmapView(w: World, s: SpaceId, pages: set<Page>)
    requires s in w.spaces
    ensures ViewOf(Unmap(w, s, pages), s) == ViewOf(w, s) - pages
  {
  }

  // The space that a step acts on, or makes.
  lemma OwnView(w: World, op: Op, s: SpaceId)
    requires Inv(w) && Enabled(w, op) && (ActsOn(op, s) || (op.CloneOp? && op.child == s))
    ensures s in Apply(w, op).spaces <==> s in PlainStep(Views(w), op)
    ensures s in Apply(w, op).spaces ==> PlainStep(Views(w), op)[s] == ViewOf(Apply(w, op), s)
  {
    match op
    case MapOp(_, pages, a) => MapView(w, s, pages, a);
    case StoreOp(_, p, offset, b) => StoreView(w, s, p, offset, b);
    case UnmapOp(_, pages) => UnmapView(w, s, pages);
    case CloneOp(parent, _, failed) => CloneView(w, parent, s, failed);
    case _ =>
  }

  lemma OtherView(w: World, op: Op, s: SpaceId)
    requires Inv(w) && Enabled(w, op) && !ActsOn(op, s) && !(op.CloneOp? && op.child == s)
    ensures s in PlainStep(Views(w), op) <==> s in w.spaces
    ensures s in w.spaces ==> PlainStep(Views(w), op)[s] == ViewOf(w, s)
    ensures s in Apply(w, op).spaces ==> s in w.spaces
  {
    match op
    case EnterOp(t, s', p, present, write, exec, given) => EnterRedirects(w, t, s', p, present, write, exec, given);
    case CommitOp(t) => CommitKeepsInv(w, t); CommitRedirects(w, t);
    case CloneOp(parent, child, failed) => ForkRights(w, parent, child, failed, child);
    case _ =>
  }

  /** Sharing is invisible: a step does to what the processes see what it does where nothing is shared. */
  lemma StepRefines(w: World, op: Op)
    requires Inv(w) && Enabled(w, op) && Gentle(w, op) && AllTrue(w)
    ensures Views(Apply(w, op)) == PlainStep(Views(w), op)
  {
    var (w', v') := (Apply(w, op), PlainStep(Views(w), op));
    forall s ensures (s in w'.spaces <==> s in v') && (s in v' ==> v'[s] == ViewOf(w', s)) {
      if ActsOn(op, s) || (op.CloneOp? && op.child == s) {
        OwnView(w, op, s);
      } else {
        OtherView(w, op, s);
        if s in w.spaces { GentleKeepsView(w, op, s); }
      }
    }
  }

  lemma StepAllTrue(w: World, op: Op)
    requires Inv(w) && Enabled(w, op) && Gentle(w, op) && AllTrue(w)
    ensures Inv(Apply(w, op)) && AllTrue(Apply(w, op))
  {
    StepKeepsInv(w, op);
    forall s | s in Apply(w, op).spaces ensures CopiesTrue(Apply(w, op), s) {
      if s !in w.spaces { NoHandlers(w, w, s); }
      StepKeepsTrue(w, op, s);
    }
  }

  ghost predicate GentleRun(w: World, ops: seq<Op>)
    requires Inv(w) && IsRun(w, ops)
    decreases |ops|
  {
    ops == [] || (Gentle(w, ops[0]) && (StepKeepsInv(w, ops[0]); GentleRun(Apply(w, ops[0]), ops[1..])))
  }

  lemma {:induction false} RunRefines(w: World, ops: seq<Op>)
    requires Inv(w) && IsRun(w, ops) && GentleRun(w, ops) && AllTrue(w)
    ensures Views(Run(w, ops)) == PlainRun(Views(w), ops)
    decreases |ops|
  {
    if ops != [] {
      StepRefines(w, ops[0]);
      StepAllTrue(w, ops[0]);
      RunRefines(Apply(w, ops[0]), ops[1..]);
    }
  }

  /** From the start of the kernel, over every interleaving: what the processes see is what they would see if fork copied
      all memory at once and no frame was ever shared. */
  lemma ForkByCopying(zero: Frame, ops: seq<Op>)
    requires IsHistory(zero, ops) && (StartInv(zero); GentleRun(Start(zero), ops))
    ensures Views(After(zero, ops)) == PlainRun(map[], ops)
  {
    StartInv(zero);
    RunRefines(Start(zero), ops);
    assert Views(Start(zero)) == map[];
  }

  // ---- The kernel's own loops ----------------------------------------------------------------

  lemma HitsOne(sp: Space, done: set<Page>, p: Page, f: Frame)
    requires p !in done
    ensures |Hits(sp, done + {p}, f)| == |Hits(sp, done, f)| + Bump(p in sp.ptes && sp.ptes[p].frame == f)
  {
    var more := if p in sp.ptes && sp.ptes[p].frame == f then {p} else {};
    assert Hits(sp, done + {p}, f) == Hits(sp, done, f) + more;
  }

  lemma DropOne(refs: map<Frame, int>, sp: Space, done: set<Page>, p: Page)
    requires p !in done && forall f :: f in refs ==> refs[f] > 0
    ensures DropRefs(refs, sp, done + {p})
         == if p in sp.ptes then UnrefIn(DropRefs(refs, sp, done), sp.ptes[p].frame) else DropRefs(refs, sp, done)
  {
    forall f ensures |Hits(sp, done + {p}, f)| == |Hits(sp, done, f)| + Bump(p in sp.ptes && sp.ptes[p].frame == f) {
      HitsOne(sp, done, p, f);
    }
  }

  lemma AddOne(refs: map<Frame, int>, sp: Space, done: set<Page>, p: Page)
    requires p !in done && p in sp.ptes
    ensures var refs' := AddRefs(refs, sp, done);
            var f := sp.ptes[p].frame;
            AddRefs(refs, sp, done + {p}) == if f in refs then refs'[f := refs'[f] + 1] else refs'
  {
    forall f ensures |Hits(sp, done + {p}, f)| == |Hits(sp, done, f)| + Bump(sp.ptes[p].frame == f) {
      HitsOne(sp, done, p, f);
    }
  }

  lemma PutThenRemove<K, V>(m: map<K, V>, k: K, v: V)
    requires k !in m
    ensures m[k := v] - {k} == m
  {
  }

  /** A present write fault whose swap follows its copy at once. */
  ghost function FaultAlone(w: World, t: ThreadId, s: SpaceId, p: Page, given: Option<Frame>): (World, Outcome)
    requires Inv(w) && Enabled(w, EnterOp(t, s, p, true, true, false, given))
  {
    var (w', outcome) := FaultEnter(w, t, s, p, true, true, false, given);
    EnterKeepsInv(w, t, s, p, true, true, false, given);
    if outcome == Copying then CommitKeepsInv(w', t); FaultCommit(w', t) else (w', outcome)
  }

  lemma FaultAloneSwaps(w: World, t: ThreadId, s: SpaceId, p: Page, given: Option<Frame>)
    requires Inv(w) && Enabled(w, EnterOp(t, s, p, true, true, false, given))
    requires FaultEnter(w, t, s, p, true, true, false, given).1 == Copying
    ensures p in w.spaces[s].areas
    ensures FaultAlone(w, t, s, p, given)
         == (var was := w.spaces[s].ptes[p];
             (Swap(NewFrame(w, given.value, BytesOf(w, was.frame)), Flight(s, p, was, given.value)), Handled))
  {
    var w' := FaultEnter(w, t, s, p, true, true, false, given).0;
    assert PteOk(w, s, p);
    PutThenRemove(w.flights, t, w'.flights[t]);
    assert !w.spaces[s].ptes[p].rw;
  }

  lemma NoneHit(sp: Space, f: Frame)
    ensures Hits(sp, {}, f) == {}
  {
  }

  /** The kernel's memory state, updated in place. */
  class Kernel {
    const zero: Frame
    var spaces: map<SpaceId, Space>
    var flights: map<ThreadId, Flight>
    var refs: map<Frame, int>
    ghost var lost: map<Frame, nat>
    var bytes: map<Frame, seq<Byte>>

    ghost function Now(): World
      reads this
    {
      World(zero, spaces, flights, refs, lost, bytes)
    }

    /** Start-up: the zero page is there, and no address space yet. */
    constructor (zero: Frame)
      ensures this.zero == zero && Now() == Start(zero) && Inv(Now())
    {
      this.zero, spaces, flights, refs, lost, bytes := zero, map[], map[], map[], map[], map[];
      new;
      StartInv(zero);
    }

    method CreateSpace(s: SpaceId)
      requires Inv(Now()) && s !in spaces
      modifies this
      ensures Now() == Create(old(Now()), s) && Inv(Now())
    {
      CreateKeepsInv(Now(), s);
      spaces := spaces[s := Space(map[], map[])];
    }

    /** A fault whose error code says that the page is not there. */
    method DemandPage(t: ThreadId, s: SpaceId, p: Page, write: bool, exec: bool, given: Option<Frame>) returns (outcome: Outcome)
      requires Inv(Now()) && Enabled(Now(), EnterOp(t, s, p, false, write, exec, given))
      modifies this
      ensures (Now(), outcome) == FaultEnter(old(Now()), t, s, p, false, write, exec, given) && Inv(Now())
    {
      EnterKeepsInv(Now(), t, s, p, false, write, exec, given);
      var sp := spaces[s];
      if p !in sp.areas { return BadAddress; }
      if write && !sp.areas[p].write && !sp.areas[p].cow { return NoAccess; }
      if exec && !sp.areas[p].exec { return NoAccess; }
      if !write {
        WriteEntry(s, p, Pte(zero, false, false, true));
        return Handled;
      }
      if given.None? { return NoMemory; }
      refs := refs[given.value := 1];
      bytes := bytes[given.value := Zeros()];
      WriteEntry(s, p, Pte(given.value, sp.areas[p].write, false, !sp.areas[p].exec));
      return Handled;
    }

    method WriteEntry(s: SpaceId, p: Page, e: Pte)
      requires s in spaces
      modifies this`spaces, this`lost
      ensures Now() == Overwrite(old(Now()), s, p, e)
    {
      ghost var w := Now();
      ghost var ptes := spaces[s].ptes;
      spaces := spaces[s := spaces[s].(ptes := spaces[s].ptes[p := e])];
      if p in ptes && ptes[p].frame != zero { lost := lost[ptes[p].frame := LostOf(w, ptes[p].frame) + 1]; }
    }

    // One more reference to the frame of one entry, the zero page excepted.
    method PageRef(f: Frame, ghost was: map<Frame, int>, ghost sp: Space, ghost done: set<Page>, ghost p: Page)
      requires p !in done && p in sp.ptes && sp.ptes[p].frame == f
      requires zero !in was && (f == zero || f in was) && refs == AddRefs(was, sp, done)
      modifies this`refs
      ensures refs == AddRefs(was, sp, done + {p})
    {
      AddOne(was, sp, done, p);
      if f != zero {
        refs := refs[f := refs[f] + 1];
      }
    }

    method PageUnref(f: Frame)
      modifies this`refs
      ensures refs == UnrefIn(old(refs), f)
    {
      if f in refs && refs[f] > 1 {
        refs := refs[f := refs[f] - 1];
      } else {
        refs := refs - {f};
      }
    }

    // The unref loop shared by unmap and destroy.
    method DropPages(sp: Space, pages: set<Page>)
      requires zero !in refs && forall f :: f in refs ==> refs[f] > 0
      modifies this`refs
      ensures refs == DropRefs(old(refs), sp, pages)
    {
      ghost var was := refs;
      var todo := pages;
      forall f ensures Hits(sp, {}, f) == {} { NoneHit(sp, f); }
      while todo != {}
        invariant todo <= pages && zero !in refs
        invariant refs == DropRefs(was, sp, pages - todo)
      {
        var p :| p in todo;
        DropOne(was, sp, pages - todo, p);
        assert pages - (todo - {p}) == pages - todo + {p};
        if p in sp.ptes && sp.ptes[p].frame != zero {
          PageUnref(sp.ptes[p].frame);
        }
        todo := todo - {p};
      }
      assert pages - todo == pages;
    }

    method UnmapPages(s: SpaceId, pages: set<Page>)
      requires Inv(Now()) && Quiet(Now(), s)
      modifies this
      ensures Now() == Unmap(old(Now()), s, pages) && Inv(Now())
    {
      StepKeepsInv(Now(), UnmapOp(s, pages));
      var sp := spaces[s];
      DropPages(sp, pages);
      spaces := spaces[s := Space(sp.areas - pages, sp.ptes - pages)];
    }

    method DestroySpace(s: SpaceId)
      requires Inv(Now()) && Quiet(Now(), s)
      modifies this
      ensures Now() == Destroy(old(Now()), s) && Inv(Now())
    {
      StepKeepsInv(Now(), DestroyOp(s));
      DropPages(spaces[s], spaces[s].areas.Keys);
      spaces := spaces - {s};
    }

    /** The walk over the parent's entries, one at a time in any order. */
    method CloneEntries(sp: Space, failed: set<Page>) returns (mine: map<Page, Pte>, theirs: map<Page, Pte>)
      requires zero !in refs && forall p :: p in sp.ptes ==> sp.ptes[p].frame == zero || sp.ptes[p].frame in refs
      modifies this`refs
      ensures refs == AddRefs(old(refs), sp, sp.ptes.Keys)
      ensures mine == DowngradeAll(sp.ptes) && theirs == InheritAll(sp.ptes, failed)
    {
      ghost var was := refs;
      mine, theirs := sp.ptes, map[];
      var todo := sp.ptes.Keys;
      forall f ensures Hits(sp, {}, f) == {} { NoneHit(sp, f); }
      while todo != {}
        invariant todo <= sp.ptes.Keys && mine.Keys == sp.ptes.Keys
        invariant forall p :: p in mine ==> mine[p] == if p in todo then sp.ptes[p] else Downgrade(sp.ptes[p])
        invariant theirs.Keys == sp.ptes.Keys - todo - failed
        invariant forall p :: p in theirs ==> theirs[p] == Inherit(sp.ptes[p])
        invariant refs == AddRefs(was, sp, sp.ptes.Keys - todo)
      {
        var p :| p in todo;
        assert sp.ptes.Keys - (todo - {p}) == sp.ptes.Keys - todo + {p};
        var e := mine[p];
        if e.rw {
          e := e.(rw := false, cow := true);
          mine := mine[p := e];
        }
        PageRef(e.frame, was, sp, sp.ptes.Keys - todo, p);
        if p !in failed {
          theirs := theirs[p := Pte(e.frame, false, e.cow, e.nx)];
        }
        todo := todo - {p};
      }
      assert sp.ptes.Keys - todo == sp.ptes.Keys;
    }

    method CloneSpace(s: SpaceId, child: SpaceId, failed: set<Page>)
      requires Inv(Now()) && Quiet(Now(), s) && child !in spaces
      modifies this
      ensures Now() == Clone(old(Now()), s, child, failed) && Inv(Now())
    {
      ghost var w := Now();
      StepKeepsInv(w, CloneOp(s, child, failed));
      var sp := spaces[s];
      forall p | p in sp.ptes ensures sp.ptes[p].frame == zero || sp.ptes[p].frame in refs { FramesKnown(w, s, p); }
      var mine, theirs := CloneEntries(sp, failed);
      lost := map f | f in w.refs :: LostOf(w, f) + |Hits(sp, failed, f)|;
      spaces := spaces[s := Space(CloneAreas(sp.areas), mine)][child := Space(CloneAreas(sp.areas), theirs)];
    }

    /** A write to a present page whose entry is read-only, with no other handler in between. */
    method BreakSharing(t: ThreadId, s: SpaceId, p: Page, given: Option<Frame>) returns (outcome: Outcome)
      requires Inv(Now()) && Enabled(Now(), EnterOp(t, s, p, true, true, false, given))
      modifies this
      ensures (Now(), outcome) == FaultAlone(old(Now()), t, s, p, given) && Inv(Now())
    {
      FramesKnown(Now(), s, p);
      AloneKeepsInv(Now(), t, s, p, given);
      var sp := spaces[s];
      var was := sp.ptes[p];
      if !sp.areas[p].write && !sp.areas[p].cow { return NoAccess; }
      if was.frame != zero && refs[was.frame] == 1 {
        spaces := spaces[s := sp.(ptes := sp.ptes[p := was.(rw := true)])];
        return Handled;
      }
      if given.None? { return NoMemory; }
      FaultAloneSwaps(Now(), t, s, p, given);
      refs := refs[given.value := 1];
      bytes := bytes[given.value := if was.frame in bytes then bytes[was.frame] else Zeros()];
      spaces := spaces[s := sp.(ptes := sp.ptes[p := Pte(given.value, true, false, !sp.areas[p].exec)])];
      if was.frame != zero {
        PageUnref(was.frame);
      }
      return Handled;
    }
  }
}
