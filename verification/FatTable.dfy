/**
 The file allocation table of fs/fat32.c: one cached sector, mirrored copies on disk, cluster allocation and
 chain release, on a disk whose reads and writes succeed. A sector is 128 little-endian 32-bit words.
 */
module FatTable {

  const WORDS := 128
  const LOW := 0x1000_0000
  const CHAIN_END := 0xFFF_FFF8
  const LAST := 0xFFF_FFFF

  type Sector = seq<int>
  type Copy = seq<Sector>

  /** The low 28 bits of a word. */
  function Low(w: int): int { w % LOW }

  /** `(w & 0xF0000000) | (v & 0x0FFFFFFF)` */
  function Patch(w: int, v: int): int { (w / LOW) * LOW + v % LOW }

  predicate CopyOk(copy: Copy) { forall s :: 0 <= s < |copy| ==> |copy[s]| == WORDS }

  /** The table as one sequence of 28-bit entries. */
  function Entries(copy: Copy): seq<int>
    requires CopyOk(copy)
  {
    seq(|copy| * WORDS, c requires 0 <= c < |copy| * WORDS => Low(copy[c / WORDS][c % WORDS]))
  }

  function SetWord(copy: Copy, cluster: int, v: int): Copy
    requires CopyOk(copy) && 0 <= cluster < |copy| * WORDS
  {
    var s, w := cluster / WORDS, cluster % WORDS;
    copy[s := copy[s][w := Patch(copy[s][w], v)]]
  }

  /** The entry of a cluster is the low 28 bits of a word, 128 of which make a sector. */
  lemma EntryIs(copy: Copy, c: int)
    requires CopyOk(copy) && 0 <= c < |copy| * 128
    ensures Entries(copy)[c] == copy[c / 128][c % 128] % 0x1000_0000
  {
  }

  /** Setting an entry changes the low 28 bits of that entry and nothing else. */
  lemma SetWordMeans(copy: Copy, cluster: int, v: int)
    requires CopyOk(copy) && 0 <= cluster < |copy| * WORDS
    ensures CopyOk(SetWord(copy, cluster, v))
    ensures Entries(SetWord(copy, cluster, v)) == Entries(copy)[cluster := v % 0x1000_0000]
    ensures forall s, w :: 0 <= s < |copy| && 0 <= w < 128 ==>
              var x := SetWord(copy, cluster, v)[s][w];
              x / 0x1000_0000 == copy[s][w] / 0x1000_0000 && (s * 128 + w != cluster ==> x == copy[s][w])
  {
    var copy' := SetWord(copy, cluster, v);
    forall c | 0 <= c < |copy| * WORDS ensures Entries(copy')[c] == Entries(copy)[cluster := Low(v)][c] { }
  }

  /** The successor the kernel follows: a free or self-referring entry ends the chain. */
  function Next(fat: seq<int>, c: int): int
    requires 0 <= c < |fat|
  {
    if fat[c] == 0 || fat[c] == c then LAST else fat[c]
  }

  /** From a place on, around the end of the table and up to a cluster, no entry is free. */
  predicate NoneBefore(fat: seq<int>, first: int, cluster: int) {
    forall c :: 2 <= c < |fat| && (if cluster >= first then first <= c < cluster else first <= c || c < cluster) ==> fat[c] != 0
  }

  predicate CacheOk(cached: int, buf: Sector, copy: Copy) { cached == -1 || (0 <= cached < |copy| && buf == copy[cached]) }

  predicate MirrorsOk(copies: seq<Copy>) {
    |copies| >= 1 && CopyOk(copies[0]) && forall i :: 0 <= i < |copies| ==> copies[i] == copies[0]
  }

  // ---- Walks ---------------------------------------------------------------------------------

  /** The cluster k links away from a start; the walk stays where there is no link to follow. */
  ghost function Walk(fat: seq<int>, start: int, k: nat): int {
    if k == 0 then start else
      var c := Walk(fat, start, k - 1);
      if 2 <= c < |fat| then fat[c] else c
  }

  ghost predicate Reachable(fat: seq<int>, start: int, c: int) { exists k: nat :: Walk(fat, start, k) == c }

  /** Every link stays inside the table or ends the chain. */
  predicate InRange(fat: seq<int>) { forall c :: 2 <= c < |fat| ==> 0 <= fat[c] < |fat| || fat[c] >= CHAIN_END }

  lemma {:induction false} ClosedWalk(fat: seq<int>, start: int, visited: set<int>, k: nat)
    requires start in visited
    requires forall c :: c in visited && 2 <= c < |fat| ==> fat[c] in visited || !(2 <= fat[c] < |fat|)
    ensures Walk(fat, start, k) in visited || !(2 <= Walk(fat, start, k) < |fat|)
  {
    if k > 0 { ClosedWalk(fat, start, visited, k - 1); }
  }

  class Table {
    var copies: seq<Copy>
    var cached: int
    var buf: Sector
    var last: int

    ghost predicate Valid()
      reads this
    {
      MirrorsOk(copies) && CacheOk(cached, buf, copies[0]) && 0 <= last < |copies[0]| * WORDS && |copies[0]| >= 1
    }

    ghost function Fat(): seq<int>
      reads this
      requires Valid()
    {
      Entries(copies[0])
    }

    method Load(sector: int)
      requires Valid() && 0 <= sector < |copies[0]|
      modifies this`cached, this`buf
      ensures Valid() && cached == sector && buf == copies[0][sector]
    {
      if cached != sector {
        buf := copies[0][sector];
        cached := sector;
      }
    }

    method NextCluster(cluster: int) returns (next: int)
      requires Valid() && 0 <= cluster < |Fat()|
      modifies this`cached, this`buf
      ensures Valid() && Fat() == old(Fat()) && next == Next(Fat(), cluster)
      ensures var e := Fat()[cluster]; next == if e == 0 || e == cluster then 0xFFF_FFFF else e
    {
      Load(cluster / WORDS);
      next := Low(buf[cluster % WORDS]);
      if next == 0 || next == cluster { next := LAST; }
    }

    /** Every copy is patched in turn; the cache follows the first. */
    method SetFatEntry(cluster: int, value: int)
      requires Valid() && 0 <= cluster < |Fat()|
      modifies this`copies, this`cached, this`buf
      ensures Valid() && |copies| == old(|copies|) && copies[0] == SetWord(old(copies)[0], cluster, value)
      ensures Fat() == old(Fat())[cluster := value % 0x1000_0000]
    {
      SetWordMeans(copies[0], cluster, value);
      var s, w := cluster / WORDS, cluster % WORDS;
      ghost var was, now := copies[0], SetWord(copies[0], cluster, value);
      for i := 0 to |copies|
        invariant |copies| == old(|copies|) >= 1
        invariant forall k :: 0 <= k < |copies| ==> copies[k] == if k < i then now else was
        invariant CacheOk(cached, buf, copies[0])
      {
        var sector := if i == 0 && cached == s then buf else copies[i][s];
        sector := sector[w := Patch(sector[w], value)];
        copies := copies[i := copies[i][s := sector]];
        if i == 0 {
          buf := sector;
          cached := s;
        }
      }
    }

    /** The search starts at the last allocated cluster and wraps around; it fails only when no entry from 2 on is free. */
    method AllocateCluster() returns (cluster: int)
      requires Valid()
      modifies this
      ensures Valid() && |copies| == old(|copies|) && |Fat()| == |old(Fat())|
      ensures cluster == 0 ==> Fat() == old(Fat()) && forall c :: 2 <= c < |Fat()| ==> Fat()[c] != 0
      ensures cluster != 0 ==> 2 <= cluster < |Fat()| && old(Fat())[cluster] == 0 && Fat() == old(Fat())[cluster := 0xFFF_FFFF]
      ensures cluster != 0 ==> last == cluster && NoneBefore(old(Fat()), if old(last) < 3 then 3 else old(last), cluster)
      ensures cluster == 0 ==> last == old(last)
    {
      var current := if last < 3 then 3 else last;
      var entries := |copies[0]| * WORDS;
      var first := current;
      ghost var wrapped := false;
      while current < entries
        invariant Valid() && copies == old(copies) && last == old(last) && entries == |Fat()| && 3 <= first < entries && 2 <= current < entries
        invariant if wrapped then current < first else first <= current
        invariant forall c :: (if wrapped then first <= c < entries || 2 <= c < current else first <= c < current) ==> Fat()[c] != 0
        decreases !wrapped, entries - current
      {
        Load(current / WORDS);
        var val := buf[current % WORDS];
        assert Low(val) == Fat()[current];
        if Low(val) == 0 {
          SetFatEntry(current, LAST);
          last := current;
          return current;
        }
        current := current + 1;
        if current >= entries {
          current := 2;
          wrapped := true;
        }
        if current == first { break; }
      }
      cluster := 0;
    }

    /** One cluster of a chain is released, and the next one found first. */
    method FreeOne(current: int, ghost fat: seq<int>, ghost start: int, ghost visited: set<int>) returns (next: int)
      requires Valid() && Freeing(fat, Fat(), start, visited, current) && 2 <= current < CHAIN_END && InRange(fat) && |fat| < CHAIN_END
      modifies this`copies, this`cached, this`buf
      ensures Valid() && Freeing(fat, Fat(), start, visited + {current}, next) && 2 <= current < |fat|
      ensures current in visited ==> next == LAST
    {
      FreeStep(fat, Fat(), start, visited, current);
      next := NextCluster(current);
      SetFatEntry(current, 0);
    }

    /** Exactly the clusters reachable from the start are released, on cyclic tables too. */
    method FreeClusterChain(start: int)
      requires Valid() && InRange(Fat()) && 0 <= start && (start < |Fat()| || start >= CHAIN_END) && |Fat()| < CHAIN_END
      modifies this`copies, this`cached, this`buf
      ensures Valid() && |Fat()| == |old(Fat())|
      ensures Freed(old(Fat()), Fat(), start)
    {
      ghost var fat := Fat();
      if start == 0 || start >= CHAIN_END {
        FreedNone(fat, start);
        return;
      }
      ghost var visited: set<int> := {};
      assert Walk(fat, start, 0) == start;
      var current := start;
      while 2 <= current < CHAIN_END
        invariant Valid() && Freeing(fat, Fat(), start, visited, current)
        decreases Pool(|fat|) - visited, if 2 <= current < CHAIN_END then 1 else 0
      {
        ghost var at := current;
        current := FreeOne(current, fat, start, visited);
        visited := visited + {at};
      }
      FreedAll(fat, Fat(), start, visited, current);
    }
  }

  /** Exactly the clusters from 2 on that can be reached are free, and nothing else has changed. */
  ghost predicate Freed(fat: seq<int>, now: seq<int>, start: int) {
    |now| == |fat| && forall c :: 0 <= c < |fat| ==> now[c] == if c >= 2 && Reachable(fat, start, c) then 0 else fat[c]
  }

  ghost function Pool(n: int): (r: set<int>)
    ensures forall c :: c in r <==> 2 <= c < n
  {
    if n <= 2 then {} else Pool(n - 1) + {n - 1}
  }

  /** `visited` has been released so far; every link out of it is released, leads nowhere, or leads to `current`. */
  ghost predicate Freeing(fat: seq<int>, now: seq<int>, start: int, visited: set<int>, current: int) {
    && |now| == |fat|
    && (forall c :: c in visited ==> 2 <= c < |fat| && Reachable(fat, start, c))
    && (forall c :: 0 <= c < |fat| ==> now[c] == if c in visited then 0 else fat[c])
    && (forall c :: c in visited ==> fat[c] in visited || !(2 <= fat[c] < |fat|) || fat[c] == current)
    && (start in visited || start == current)
    && (2 <= current < CHAIN_END ==> current < |fat| && Reachable(fat, start, current))
  }

  lemma FreeStep(fat: seq<int>, now: seq<int>, start: int, visited: set<int>, current: int)
    requires Freeing(fat, now, start, visited, current) && 2 <= current < CHAIN_END && InRange(fat) && |fat| < CHAIN_END
    ensures Freeing(fat, now[current := 0], start, visited + {current}, Next(now, current))
    ensures current in visited ==> Next(now, current) == LAST
  {
    var k: nat :| Walk(fat, start, k) == current;
    assert Walk(fat, start, k + 1) == fat[current];
  }

  lemma FreedAll(fat: seq<int>, now: seq<int>, start: int, visited: set<int>, current: int)
    requires Freeing(fat, now, start, visited, current) && !(2 <= current < CHAIN_END) && |fat| < CHAIN_END
    ensures Freed(fat, now, start)
  {
    forall c | 2 <= c < |fat| && c !in visited ensures !Reachable(fat, start, c) {
      forall k: nat ensures Walk(fat, start, k) != c {
        if start in visited { ClosedWalk(fat, start, visited, k); } else { StuckWalk(fat, start, k); }
      }
    }
  }

  lemma FreedNone(fat: seq<int>, start: int)
    requires !(2 <= start < |fat|)
    ensures Freed(fat, fat, start)
  {
    forall k: nat ensures Walk(fat, start, k) == start { StuckWalk(fat, start, k); }
  }

  lemma {:induction false} StuckWalk(fat: seq<int>, start: int, k: nat)
    requires !(2 <= start < |fat|)
    ensures Walk(fat, start, k) == start
  {
    if k > 0 { StuckWalk(fat, start, k - 1); }
  }
}
