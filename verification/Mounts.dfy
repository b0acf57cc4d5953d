/** The mount table of fs/vfs_mount.c and the search for the mount of a path (fs/vfs_path.c). */
module Mounts {
  import opened Basics
  import opened Paths

  const MAX_MOUNTS := 64
  const KEPT_PATH := 255
  const KEPT_DEVICE := 31

  /** `length` is the length of the path asked for, of which `path` keeps the first 255 characters. */
  datatype Slot = Slot(active: bool, path: string, length: int, device: string)

  function Active(slots: seq<Slot>): int {
    if slots == [] then 0 else Active(slots[..|slots| - 1]) + if slots[|slots| - 1].active then 1 else 0
  }

  lemma {:induction false} ActiveUpdate(slots: seq<Slot>, i: int, x: Slot)
    requires 0 <= i < |slots|
    ensures Active(slots[i := x]) == Active(slots) + (if x.active then 1 else 0) - (if slots[i].active then 1 else 0)
    decreases |slots|
  {
    var n := |slots| - 1;
    if i < n {
      ActiveUpdate(slots[..n], i, x);
      assert slots[i := x][..n] == slots[..n][i := x];
    } else {
      assert slots[i := x][..n] == slots[..n];
    }
  }

  predicate Differ(a: Slot, b: Slot) { !a.active || !b.active || a.path != b.path }

  /** No two mounts have the same path. */
  ghost predicate Distinct(slots: seq<Slot>) {
    forall i, j {:trigger Differ(slots[i], slots[j])} :: 0 <= i < j < |slots| ==> Differ(slots[i], slots[j])
  }

  predicate Whole(x: Slot) { x.active ==> x.length == |x.path| >= 1 }

  /** Every mount keeps its whole path. */
  ghost predicate Exact(slots: seq<Slot>) { forall i {:trigger Whole(slots[i])} :: 0 <= i < |slots| ==> Whole(slots[i]) }

  predicate MountedAt(x: Slot, name: string) { x.active && x.path == name }

  ghost predicate Mounted(slots: seq<Slot>, name: string) {
    exists i {:trigger MountedAt(slots[i], name)} :: 0 <= i < |slots| && MountedAt(slots[i], name)
  }

  function Cut(s: string, n: int): string
    requires n >= 0
  {
    if |s| <= n then s else s[..n]
  }

  /** A new mount; no device is the empty name. */
  function Mount(name: string, device: Option<string>): Slot {
    Slot(true, Cut(name, KEPT_PATH), |name|, if device.Some? then Cut(device.value, KEPT_DEVICE) else "")
  }

  /** A name keeps its first characters, at most the number given. */
  lemma CutIs(s: string, n: int)
    requires n >= 0
    ensures Cut(s, n) <= s && |Cut(s, n)| <= n && (|s| <= n ==> Cut(s, n) == s) && (|s| > n ==> |Cut(s, n)| == n)
  {
  }

  /** A new mount keeps the paths distinct exactly when its path fits, or no mount has the part of it that is kept. */
  lemma DistinctIff(slots: seq<Slot>, i: int, name: string, device: Option<string>)
    requires Distinct(slots) && 0 <= i < |slots| && !slots[i].active && !Mounted(slots, name)
    ensures Distinct(slots[i := Mount(name, device)]) <==> |name| <= KEPT_PATH || !Mounted(slots, Cut(name, KEPT_PATH))
  {
    var x := Mount(name, device);
    var after := slots[i := x];
    if |name| <= KEPT_PATH || !Mounted(slots, Cut(name, KEPT_PATH)) {
      forall a, b | 0 <= a < b < |after| ensures Differ(after[a], after[b]) {
        assert Differ(slots[a], slots[b]);
        assert !MountedAt(slots[a], x.path) && !MountedAt(slots[b], x.path);
      }
    } else {
      var j :| 0 <= j < |slots| && MountedAt(slots[j], Cut(name, KEPT_PATH));
      assert if i < j then !Differ(after[i], after[j]) else !Differ(after[j], after[i]);
    }
  }

  lemma UpdateDistinct(slots: seq<Slot>, i: int, x: Slot)
    requires Distinct(slots) && 0 <= i < |slots| && (x.active ==> slots[i].active && x.path == slots[i].path)
    ensures Distinct(slots[i := x])
  {
    var after := slots[i := x];
    forall a, b | 0 <= a < b < |after| ensures Differ(after[a], after[b]) { assert Differ(slots[a], slots[b]); }
  }

  lemma UpdateExact(slots: seq<Slot>, i: int, x: Slot)
    requires Exact(slots) && 0 <= i < |slots| && Whole(x)
    ensures Exact(slots[i := x])
  {
    var after := slots[i := x];
    forall a | 0 <= a < |after| ensures Whole(after[a]) { assert Whole(slots[a]); }
  }

  lemma {:induction false} NoneActive(slots: seq<Slot>)
    requires forall i :: 0 <= i < |slots| ==> !slots[i].active
    ensures Active(slots) == 0
    decreases |slots|
  {
    if slots != [] { NoneActive(slots[..|slots| - 1]); }
  }

  lemma {:induction false} ActiveBound(slots: seq<Slot>)
    ensures 0 <= Active(slots) <= |slots|
    ensures (forall i :: 0 <= i < |slots| ==> slots[i].active) ==> Active(slots) == |slots|
    decreases |slots|
  {
    if slots != [] { ActiveBound(slots[..|slots| - 1]); }
  }

  lemma SomeFree(slots: seq<Slot>, i: int)
    requires 0 <= i < |slots| && !slots[i].active
    ensures Active(slots) < |slots|
  {
    var x := slots[i].(active := true);
    ActiveUpdate(slots, i, x);
    ActiveBound(slots[i := x]);
  }

  // ---- Resolution ----------------------------------------------------------------------------

  /** A mount path holds a path: it is the path, or the path goes on below it. */
  predicate Over(m: string, path: string) {
    m <= path && (|path| == |m| || path[|m|] == '/' || |m| == 1)
  }

  ghost predicate Candidate(slots: seq<Slot>, i: int, path: string) { 0 <= i < |slots| && slots[i].active && Over(slots[i].path, path) }

  /** The path below a mount. */
  function Below(m: string, path: string): string
    requires m <= path
  {
    if |m| == 1 then path else if |path| == |m| then "/" else path[|m|..]
  }

  /** A name and its path below a mount make up the path again. */
  lemma Rebuilt(m: string, path: string)
    requires Over(m, path) && m != ""
    ensures |m| > 1 && path != m ==> m + Below(m, path) == path
    ensures |m| > 1 && path == m ==> Below(m, path) == "/"
    ensures |m| == 1 ==> Below(m, path) == path
    ensures path != "" && path[0] == '/' ==> Below(m, path) != "" && Below(m, path)[0] == '/'
  {
  }

  /** Two mount paths over one path are nested; those of equal length are equal. */
  lemma Nested(a: string, b: string, path: string)
    requires Over(a, path) && Over(b, path) && |a| <= |b|
    ensures a <= b && (|a| == |b| ==> a == b)
  {
    assert a == path[..|a|] && b == path[..|b|];
  }

  /** Over canonical paths, holding means that the names of the mount are the first names of the path. */
  lemma OverIffPrefix(ms: seq<string>, ps: seq<string>)
    requires Names(ms) && Names(ps)
    ensures Over(Render(ms), Render(ps)) <==> ms <= ps
  {
    SpellShape(ms);
    SpellShape(ps);
    if ms == [] {
      assert "/" <= Render(ps);
    } else {
      if Over(Render(ms), Render(ps)) {
        var t := Render(ps)[|Render(ms)|..];
        assert Render(ps) == Render(ms) + t;
        SplitSpell(ms, t);
        SplitRender(ps);
      }
      if ms <= ps {
        SpellMore(ms, ps);
      }
    }
  }

  lemma {:induction false} SpellMore(ms: seq<string>, ps: seq<string>)
    requires ms <= ps && Names(ps)
    ensures Spell(ms) <= Spell(ps) && (|Spell(ps)| == |Spell(ms)| || Spell(ps)[|Spell(ms)|] == '/')
    decreases |ps|
  {
    if |ms| < |ps| {
      var n := |ps| - 1;
      SpellMore(ms, ps[..n]);
    } else {
      assert ms == ps;
    }
  }

  // ---- Runs ----------------------------------------------------------------------------------

  /** `open` are the slots with open files at the time of an unmount. */
  datatype Request = MountAs(path: string, device: Option<string>) | UnmountFrom(path: string, open: set<int>)

  /** What a mount does: a mount of that name gets the new device, if one is given; else the first free slot is taken; else
      nothing happens. */
  ghost predicate MountStep(was: seq<Slot>, now: seq<Slot>, name: string, device: Option<string>, ok: bool) {
    if Mounted(was, name) then
      && ok
      && exists at {:trigger MountedAt(was[at], name)} :: 0 <= at < |was| && MountedAt(was[at], name)
           && now == was[at := Slot(true, name, |name|, if device.Some? then Cut(device.value, 31) else was[at].device)]
    else if Full(was) then !ok && now == was
    else ok && exists at {:trigger was[at]} :: FirstFree(was, at) && now == was[at := Slot(true, Cut(name, 255), |name|, if device.Some? then Cut(device.value, 31) else "")]
  }

  predicate Full(slots: seq<Slot>) { forall i :: 0 <= i < |slots| ==> slots[i].active }

  predicate FirstFree(slots: seq<Slot>, at: int) {
    0 <= at < |slots| && !slots[at].active && forall j :: 0 <= j < at ==> slots[j].active
  }

  /** The device an unmount may name. */
  function DeviceOf(path: string): string { if "/dev/" <= path then path[5..] else path }

  /** An unmount asks for a mount: by its path, or by its device. */
  ghost predicate Wanted(x: Slot, path: string) {
    RootRelevant(path);
    x.active && (x.path == Normal(Some("/"), path) || (DeviceOf(path) != "" && x.device == DeviceOf(path)))
  }

  ghost predicate FirstWanted(slots: seq<Slot>, path: string, at: int) {
    0 <= at < |slots| && Wanted(slots[at], path) && forall j :: 0 <= j < at ==> !Wanted(slots[j], path)
  }

  /** What an unmount does: the first mount asked for goes, unless files are open on it. */
  ghost predicate UnmountStep(was: seq<Slot>, now: seq<Slot>, path: string, open: set<int>, ok: bool, at: int) {
    if exists i :: 0 <= i < |was| && Wanted(was[i], path) then
      FirstWanted(was, path, at) && ok == (at !in open) && now == if ok then was[at := was[at].(active := false)] else was
    else !ok && now == was
  }

  /** A request between two states of the table. */
  ghost predicate Served(r: Request, ok: bool, at: int, was: seq<Slot>, now: seq<Slot>) {
    match r
    case MountAs(path, device) => RootRelevant(path); MountStep(was, now, Normal(Some("/"), path), device, ok)
    case UnmountFrom(path, open) => UnmountStep(was, now, path, open, ok, at)
  }

  /** What it makes of the list of mount points. */
  ghost predicate Relisted(r: Request, ok: bool, at: int, was: seq<Slot>, paths: seq<string>, paths': seq<string>) {
    if !ok then paths' == paths
    else
      match r
      case MountAs(path, _) =>
        RootRelevant(path);
        var name := Normal(Some("/"), path);
        paths' == if name in paths then paths else paths + [name]
      case UnmountFrom(_, _) => 0 <= at < |was| && Struck(paths, was[at].path, paths')
  }

  /** One path is struck off a list. */
  ghost predicate Struck(paths: seq<string>, gone: string, rest: seq<string>) {
    exists k :: 0 <= k < |paths| && paths[k] == gone && rest == paths[..k] + paths[k + 1..]
  }

  lemma RootRelevant(path: string)
    ensures Relevant(Some("/"), path)
  {
    assert Names([]) && Render([]) == "/";
  }

  ghost predicate FitsSlot(r: Request) {
    r.MountAs? ==> (RootRelevant(r.path); |Normal(Some("/"), r.path)| <= KEPT_PATH)
  }

  ghost predicate Listed(slots: seq<Slot>, paths: seq<string>, p: string) { p in paths <==> Mounted(slots, p) }

  ghost predicate Lists(slots: seq<Slot>, count: int, paths: seq<string>) {
    && (forall p {:trigger Listed(slots, paths, p)} :: Listed(slots, paths, p))
    && |paths| == count && NoDup(paths)
  }

  lemma MountedAfter(slots: seq<Slot>, i: int, x: Slot, p: string)
    requires 0 <= i < |slots| && x.active && (slots[i].active ==> x.path == slots[i].path)
    ensures Mounted(slots[i := x], p) <==> Mounted(slots, p) || p == x.path
  {
    var after := slots[i := x];
    assert MountedAt(after[i], x.path);
    if j :| 0 <= j < |slots| && MountedAt(slots[j], p) { assert MountedAt(after[j], p); }
    if j :| 0 <= j < |after| && MountedAt(after[j], p) { assert j != i ==> MountedAt(slots[j], p); }
  }

  lemma UnmountedAfter(slots: seq<Slot>, i: int, x: Slot, p: string)
    requires 0 <= i < |slots| && slots[i].active && !x.active && Distinct(slots)
    ensures Mounted(slots[i := x], p) <==> Mounted(slots, p) && p != slots[i].path
  {
    var after := slots[i := x];
    if j :| 0 <= j < |after| && MountedAt(after[j], p) {
      assert MountedAt(slots[j], p) && Differ(slots[if i < j then i else j], slots[if i < j then j else i]);
    }
    if j :| 0 <= j < |slots| && MountedAt(slots[j], p) { assert j != i ==> MountedAt(after[j], p); }
  }

  lemma NothingMounted(slots: seq<Slot>)
    requires Active(slots) == 0
    ensures Lists(slots, 0, [])
  {
    forall p ensures Listed(slots, [], p) {
      if i :| 0 <= i < |slots| && MountedAt(slots[i], p) {
        ActiveUpdate(slots, i, slots[i].(active := false));
        ActiveBound(slots[i := slots[i].(active := false)]);
      }
    }
  }

  ghost function Enlist(was: seq<Slot>, count: int, slots: seq<Slot>, paths: seq<string>, name: string, ok: bool): (all: seq<string>)
    requires Lists(was, count, paths) && forall p :: Mounted(slots, p) <==> Mounted(was, p) || (ok && p == name)
    ensures Lists(slots, count + (if ok && !Mounted(was, name) then 1 else 0), all)
    ensures all == if ok && name !in paths then paths + [name] else paths
  {
    assert Listed(was, paths, name);
    var all := if ok && name !in paths then paths + [name] else paths;
    assert forall p :: Listed(was, paths, p) ==> Listed(slots, all, p);
    all
  }

  // The list without one of its paths.
  ghost function Delist(was: seq<Slot>, count: int, slots: seq<Slot>, paths: seq<string>, gone: string): (rest: seq<string>)
    requires Lists(was, count, paths) && Mounted(was, gone) && forall p :: Mounted(slots, p) <==> Mounted(was, p) && p != gone
    ensures Lists(slots, count - 1, rest) && Struck(paths, gone, rest)
  {
    assert Listed(was, paths, gone);
    var k :| 0 <= k < |paths| && paths[k] == gone;
    DelistOk(paths, k);
    var rest := paths[..k] + paths[k + 1..];
    assert forall p :: Listed(was, paths, p) ==> Listed(slots, rest, p);
    rest
  }

  lemma DelistOk(paths: seq<string>, k: int)
    requires 0 <= k < |paths| && NoDup(paths)
    ensures var rest := paths[..k] + paths[k + 1..];
            && (forall p :: p in rest <==> p in paths && p != paths[k])
            && NoDup(rest)
  {
    var rest := paths[..k] + paths[k + 1..];
    forall i | 0 <= i < |rest| ensures rest[i] == paths[if i < k then i else i + 1] { }
    forall p ensures p in rest <==> p in paths && p != paths[k] {
      if p in paths && p != paths[k] {
        var i :| 0 <= i < |paths| && paths[i] == p;
        assert rest[if i < k then i else i - 1] == p;
      }
    }
  }

  class MountTable {
    var slots: seq<Slot>
    var count: int

    ghost predicate Valid()
      reads this
    {
      |slots| == MAX_MOUNTS && count == Active(slots) && forall i :: 0 <= i < |slots| ==> |slots[i].path| <= KEPT_PATH
    }

    constructor ()
      ensures Valid() && count == 0 && Distinct(slots) && Exact(slots)
    {
      slots := seq(MAX_MOUNTS, _ => Slot(false, "", 0, ""));
      count := 0;
      new;
      NoneActive(slots);
    }

    /** The slot a name is mounted at, or the first free one, or neither. */
    method FindName(name: string) returns (i: int)
      requires Valid()
      ensures 0 <= i <= MAX_MOUNTS
      ensures i < MAX_MOUNTS ==> MountedAt(slots[i], name)
      ensures i == MAX_MOUNTS ==> !Mounted(slots, name)
    {
      for k := 0 to MAX_MOUNTS
        invariant forall j {:trigger MountedAt(slots[j], name)} :: 0 <= j < k ==> !MountedAt(slots[j], name)
      {
        if slots[k].active && slots[k].path == name { return k; }
      }
      return MAX_MOUNTS;
    }

    method FindFree() returns (i: int)
      requires Valid()
      ensures 0 <= i <= MAX_MOUNTS && (i < MAX_MOUNTS ==> FirstFree(slots, i)) && (i == MAX_MOUNTS ==> Full(slots))
    {
      for k := 0 to MAX_MOUNTS
        invariant forall j :: 0 <= j < k ==> slots[j].active
      {
        if !slots[k].active { return k; }
      }
      return MAX_MOUNTS;
    }

    /** Mounts at a normalised name: an old mount of the name is updated, else a free slot is taken. */
    method MountAt(name: string, device: Option<string>) returns (ok: bool, ghost at: int)
      requires Valid() && name != ""
      modifies this
      ensures Valid() && MountStep(old(slots), slots, name, device, ok)
      ensures ok ==> 0 <= at < MAX_MOUNTS && slots == old(slots)[at := slots[at]] && MountedAt(slots[at], Cut(name, KEPT_PATH))
      ensures ok && Mounted(old(slots), name) ==> count == old(count) && MountedAt(old(slots)[at], name)
      ensures ok && !Mounted(old(slots), name) ==> count == old(count) + 1 && !old(slots)[at].active
      ensures !ok ==> count == old(count)
      ensures Distinct(old(slots)) ==>
                (Distinct(slots) <==> Mounted(old(slots), name) || !ok || |name| <= KEPT_PATH || !Mounted(old(slots), Cut(name, KEPT_PATH)))
      ensures Exact(old(slots)) && |name| <= KEPT_PATH ==> Exact(slots)
    {
      var i := FindName(name);
      if i < MAX_MOUNTS {
        var x := slots[i].(length := |name|);
        if device.Some? { x := x.(device := Cut(device.value, KEPT_DEVICE)); }
        ActiveUpdate(slots, i, x);
        if Distinct(slots) { UpdateDistinct(slots, i, x); }
        if Exact(slots) { UpdateExact(slots, i, x); }
        slots := slots[i := x];
        return true, i;
      }
      i := FindFree();
      ActiveBound(slots);
      if i == MAX_MOUNTS { return false, 0; }
      SomeFree(slots, i);
      var x := Mount(name, device);
      ActiveUpdate(slots, i, x);
      if Distinct(slots) { DistinctIff(slots, i, name, device); }
      if Exact(slots) && |name| <= KEPT_PATH { UpdateExact(slots, i, x); }
      slots := slots[i := x];
      count := count + 1;
      return true, i;
    }

    method MountPath(path: string, device: Option<string>) returns (ok: bool, ghost name: string)
      requires Valid()
      modifies this
      ensures Relevant(Some("/"), path) && name == Normal(Some("/"), path)
      ensures Valid() && MountStep(old(slots), slots, name, device, ok)
      ensures Distinct(old(slots)) && Exact(old(slots)) && |name| <= KEPT_PATH ==> Distinct(slots) && Exact(slots)
      ensures ok ==> Mounted(slots, Cut(name, KEPT_PATH))
      ensures count == old(count) + if ok && !Mounted(old(slots), name) then 1 else 0
      ensures |name| <= KEPT_PATH ==> forall p :: Mounted(slots, p) <==> Mounted(old(slots), p) || (ok && p == name)
    {
      RootRelevant(path);
      var normalized := Normalize(Some("/"), path);
      name := normalized;
      ghost var at;
      ok, at := MountAt(normalized, device);
      if ok && |name| <= KEPT_PATH {
        ghost var was, now, x := old(slots), slots, slots[at];
        assert now == was[at := x] && x.path == name;
        forall p ensures Mounted(now, p) <==> Mounted(was, p) || p == name { MountedAfter(was, at, x, p); }
      }
    }

    /** By the normal form of a path, or by the name of a device: the first such mount goes unless files are open on it. */
    method Unmount(path: string, open: set<int>) returns (ok: bool, ghost at: int)
      requires Valid()
      modifies this
      ensures Valid() && UnmountStep(old(slots), slots, path, open, ok, at)
      ensures (Distinct(old(slots)) ==> Distinct(slots)) && (Exact(old(slots)) ==> Exact(slots))
      ensures count == old(count) - if ok then 1 else 0
      ensures ok ==> 0 <= at < MAX_MOUNTS && Mounted(old(slots), old(slots)[at].path)
      ensures ok && Distinct(old(slots)) ==> forall p :: Mounted(slots, p) <==> Mounted(old(slots), p) && p != old(slots)[at].path
    {
      RootRelevant(path);
      var normalized := Normalize(Some("/"), path);
      var target := if |path| >= 5 && path[..5] == "/dev/" then path[5..] else path;
      for i := 0 to MAX_MOUNTS
        invariant slots == old(slots) && count == old(count) && forall j :: 0 <= j < i ==> !Wanted(slots[j], path)
      {
        var hit := slots[i].active && slots[i].path == normalized;
        if slots[i].active && !hit && target != "" && slots[i].device != "" && slots[i].device == target { hit := true; }
        assert hit <==> Wanted(slots[i], path);
        if hit {
          if i in open { return false, i; }
          Deactivate(i);
          return true, i;
        }
      }
      return false, MAX_MOUNTS;
    }

    method Deactivate(i: int)
      requires Valid() && 0 <= i < MAX_MOUNTS && slots[i].active
      modifies this
      ensures Valid() && slots == old(slots)[i := old(slots)[i].(active := false)] && count == old(count) - 1
      ensures (Distinct(old(slots)) ==> Distinct(slots)) && (Exact(old(slots)) ==> Exact(slots))
      ensures Mounted(old(slots), old(slots)[i].path)
      ensures Distinct(old(slots)) ==> forall p :: Mounted(slots, p) <==> Mounted(old(slots), p) && p != old(slots)[i].path
    {
      ghost var was, gone := slots, slots[i].path;
      var x := slots[i].(active := false);
      ActiveUpdate(slots, i, x);
      if Distinct(slots) { UpdateDistinct(slots, i, x); }
      if Exact(slots) { UpdateExact(slots, i, x); }
      slots := slots[i := x];
      count := count - 1;
      assert MountedAt(was[i], gone);
      if Distinct(was) {
        forall p ensures Mounted(slots, p) <==> Mounted(was, p) && p != gone { UnmountedAfter(was, i, x, p); }
      }
    }

    /** The mount points are distinct and listed. */
    ghost predicate Tidy(paths: seq<string>)
      reads this
    {
      Distinct(slots) && Exact(slots) && Lists(slots, count, paths)
    }

    method ServeOne(r: Request, ghost paths: seq<string>) returns (ok: bool, ghost at: int, ghost paths': seq<string>)
      requires Valid()
      modifies this
      ensures Valid() && Served(r, ok, at, old(slots), slots)
      ensures old(Tidy(paths)) && FitsSlot(r) ==> Tidy(paths') && Relisted(r, ok, at, old(slots), paths, paths')
    {
      ghost var was, before, tidy := slots, count, Tidy(paths) && FitsSlot(r);
      at, paths' := 0, paths;
      match r
      case MountAs(path, device) =>
        ghost var name;
        ok, name := MountPath(path, device);
        if tidy {
          assert Listed(was, paths, name);
          paths' := Enlist(was, before, slots, paths, name, ok);
        }
      case UnmountFrom(path, open) =>
        ok, at := Unmount(path, open);
        if tidy && ok { paths' := Delist(was, before, slots, paths, was[at].path); }
    }

    /**
     Any run of mounts and unmounts from an empty table: request by request the table is what it makes of the one before.
     When the normal forms of all paths fit a slot, the mount points are distinct and `lists` keeps track of them.
     */
    method Serve(requests: seq<Request>) returns (oks: seq<bool>, ghost ats: seq<int>, ghost tables: seq<seq<Slot>>, ghost lists: seq<seq<string>>)
      requires Valid() && count == 0 && Distinct(slots) && Exact(slots)
      modifies this
      ensures Valid() && |oks| == |ats| == |requests| && |tables| == |lists| == |requests| + 1
      ensures tables[0] == old(slots) && lists[0] == [] && tables[|requests|] == slots
      ensures forall i {:trigger requests[i]} :: 0 <= i < |requests| ==> Served(requests[i], oks[i], ats[i], tables[i], tables[i + 1])
      ensures (forall i :: 0 <= i < |requests| ==> FitsSlot(requests[i])) ==>
                && Tidy(lists[|requests|])
                && forall i {:trigger requests[i]} :: 0 <= i < |requests| ==> Relisted(requests[i], oks[i], ats[i], tables[i], lists[i], lists[i + 1])
    {
      oks, ats, tables, lists := [], [], [slots], [[]];
      ghost var fits := forall i :: 0 <= i < |requests| ==> FitsSlot(requests[i]);
      NothingMounted(slots);
      for i := 0 to |requests|
        invariant Valid() && |oks| == |ats| == i && |tables| == |lists| == i + 1
        invariant tables[0] == old(slots) && lists[0] == [] && tables[i] == slots
        invariant forall j {:trigger requests[j]} :: 0 <= j < i ==> Served(requests[j], oks[j], ats[j], tables[j], tables[j + 1])
        invariant fits ==> Tidy(lists[i])
        invariant fits ==> forall j {:trigger requests[j]} :: 0 <= j < i ==> Relisted(requests[j], oks[j], ats[j], tables[j], lists[j], lists[j + 1])
      {
        assert fits ==> FitsSlot(requests[i]);
        var ok;
        ghost var at, paths;
        ok, at, paths := ServeOne(requests[i], lists[i]);
        oks, ats, tables, lists := oks + [ok], ats + [at], tables + [slots], lists + [paths];
      }
    }

    /** The mount of a path: of all mounts that hold it the one with the longest path, of which there is only one. */
    method Resolve(path: string) returns (best: int, rel: string)
      requires Valid() && Exact(slots)
      ensures best < 0 ==> forall i :: !Candidate(slots, i, path)
      ensures best >= 0 ==> Candidate(slots, best, path) && rel == Below(slots[best].path, path)
      ensures best >= 0 ==> forall i :: Candidate(slots, i, path) ==> slots[i].path <= slots[best].path
      ensures best >= 0 && Distinct(slots) ==> forall i :: Candidate(slots, i, path) && i != best ==> |slots[i].path| < |slots[best].path|
    {
      best, rel := -1, "";
      var bestLen := -1;
      for i := 0 to MAX_MOUNTS
        invariant best < 0 ==> bestLen == -1 && forall j :: j < i ==> !Candidate(slots, j, path)
        invariant best >= 0 ==> best < i && Candidate(slots, best, path) && bestLen == |slots[best].path|
        invariant best >= 0 ==> forall j :: j < i && Candidate(slots, j, path) ==> |slots[j].path| <= bestLen
      {
        var x := slots[i];
        assert Whole(x);
        if x.active {
          var len := x.length;
          if len <= |path| && path[..len] == x.path {
            if len == |path| || path[len] == '/' || len == 1 {
              if len > bestLen { best, bestLen := i, len; }
            }
          }
        }
      }
      if best >= 0 {
        var m := slots[best].path;
        rel := if bestLen == 1 then path else if bestLen == |path| then "/" else path[bestLen..];
        forall i | Candidate(slots, i, path)
          ensures slots[i].path <= m && (Distinct(slots) && i != best ==> |slots[i].path| < |m|)
        {
          Nested(slots[i].path, m, path);
          if Distinct(slots) && i != best { assert if i < best then Differ(slots[i], slots[best]) else Differ(slots[best], slots[i]); }
        }
      }
    }
  }
}
