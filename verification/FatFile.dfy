/**
 Appending to and reading from cluster chains (fs/fat32.c), on top of the allocation table. File contents are
 stated as a relation between the data clusters, a chain and the bytes it holds.
 */
module FatFile {
  import opened Arithmetic
  import opened Basics
  import opened FatTable

  type Byte = x: int | 0 <= x < 256

  const BURST := 64

  /** An acyclic chain: distinct clusters, each linked to the next, the last one marked as the end. */
  ghost predicate IsChain(fat: seq<int>, chain: seq<int>) {
    && |chain| >= 1 && NoDup(chain) && |fat| < CHAIN_END
    && (forall i :: 0 <= i < |chain| ==> 2 <= chain[i] < |fat|)
    && (forall i :: 0 <= i < |chain| - 1 ==> fat[chain[i]] == chain[i + 1])
    && fat[chain[|chain| - 1]] >= CHAIN_END
  }

  ghost predicate ByteAt(data: seq<seq<Byte>>, chain: seq<int>, size: int, i: int, b: Byte)
    requires size > 0
  {
    && 0 <= i / size < |chain| && 0 <= chain[i / size] < |data|
    && 0 <= i % size < |data[chain[i / size]]| && data[chain[i / size]][i % size] == b
  }

  /** The chain's clusters, `size` bytes each, hold these bytes from their beginning. */
  ghost predicate Holds(data: seq<seq<Byte>>, chain: seq<int>, size: int, bytes: seq<Byte>)
    requires size > 0
  {
    forall i {:trigger ByteAt(data, chain, size, i, bytes[i])} :: 0 <= i < |bytes| ==> ByteAt(data, chain, size, i, bytes[i])
  }

  predicate DataOk(data: seq<seq<Byte>>, size: int) { forall c :: 0 <= c < |data| ==> |data[c]| == size }

  // ---- Contents ------------------------------------------------------------------------------

  /** One cluster gets a buffer that keeps the bytes before the end of file and continues with the chunk. */
  lemma PutChunk(data: seq<seq<Byte>>, chain: seq<int>, size: int, bytes: seq<Byte>, q: int, r: int, chunk: seq<Byte>, buf: seq<Byte>)
    requires size > 0 && NoDup(chain) && Holds(data, chain, size, bytes)
    requires |bytes| == q * size + r && 0 <= q < |chain| && 0 <= r && r + |chunk| <= size == |buf|
    requires 0 <= chain[q] < |data| && |data[chain[q]]| == size
    requires forall i :: 0 <= i < r ==> buf[i] == data[chain[q]][i]
    requires forall i :: 0 <= i < |chunk| ==> buf[r + i] == chunk[i]
    ensures Holds(data[chain[q] := buf], chain, size, bytes + chunk)
  {
    var data', bytes' := data[chain[q] := buf], bytes + chunk;
    forall i | 0 <= i < |bytes'| ensures ByteAt(data', chain, size, i, bytes'[i]) {
      if i < |bytes| {
        assert ByteAt(data, chain, size, i, bytes[i]);
        assert i == (i / size) * size + i % size;
        if i / size == q { assert i % size < r; }
      } else {
        DivMod(q, r + (i - |bytes|), size);
      }
    }
  }

  lemma HoldsLonger(data: seq<seq<Byte>>, chain: seq<int>, chain': seq<int>, size: int, bytes: seq<Byte>)
    requires size > 0 && Holds(data, chain, size, bytes) && chain <= chain'
    ensures Holds(data, chain', size, bytes)
  {
    forall i | 0 <= i < |bytes| ensures ByteAt(data, chain', size, i, bytes[i]) { assert ByteAt(data, chain, size, i, bytes[i]); }
  }

  // ---- Chains --------------------------------------------------------------------------------

  lemma LinkedOn(fat: seq<int>, chain: seq<int>, i: int)
    requires IsChain(fat, chain) && 0 <= i < |chain|
    ensures fat[chain[i]] != 0
  {
    assert i < |chain| - 1 ==> fat[chain[i]] == chain[i + 1];
  }

  /** A free cluster, marked as an end and linked behind the last one, makes the chain one longer. */
  lemma ChainGrows(fat: seq<int>, chain: seq<int>, c: int)
    requires IsChain(fat, chain) && 2 <= c < |fat| && fat[c] == 0
    ensures c !in chain && IsChain(fat[c := LAST][chain[|chain| - 1] := c], chain + [c])
  {
    var n := |chain| - 1;
    forall i | 0 <= i <= n ensures chain[i] != c {
      if i < n { assert fat[chain[i]] == chain[i + 1]; }
    }
    var fat', chain' := fat[c := LAST][chain[n] := c], chain + [c];
    forall i | 0 <= i < |chain'| - 1 ensures fat'[chain'[i]] == chain'[i + 1] {
      if i < n { assert fat[chain[i]] == chain[i + 1]; }
    }
  }

  lemma ChainStarts(fat: seq<int>, c: int)
    requires 2 <= c < |fat| < CHAIN_END
    ensures IsChain(fat[c := LAST], [c])
  {
  }

  /** The kernel's successor on a chain: the next member, or an end mark behind the last. */
  lemma ChainNext(fat: seq<int>, chain: seq<int>, i: int)
    requires IsChain(fat, chain) && 0 <= i < |chain|
    ensures if i + 1 < |chain| then Next(fat, chain[i]) == chain[i + 1] else Next(fat, chain[i]) >= CHAIN_END
  {
    if i + 1 < |chain| { assert chain[i] != chain[i + 1]; }
  }

  /** What an append leaves alone: clusters outside the grown chain; the new members were free. */
  ghost predicate Kept(fat: seq<int>, data: seq<seq<Byte>>, chain: seq<int>, fat': seq<int>, data': seq<seq<Byte>>, chain': seq<int>) {
    && |fat'| == |fat| && |data'| == |data| && chain <= chain'
    && (forall c {:trigger KeptAt(fat, data, fat', data', chain', c)} :: KeptAt(fat, data, fat', data', chain', c))
    && (forall i {:trigger Fresh(fat, chain', i)} :: |chain| <= i < |chain'| ==> Fresh(fat, chain', i))
  }

  ghost predicate KeptAt(fat: seq<int>, data: seq<seq<Byte>>, fat': seq<int>, data': seq<seq<Byte>>, chain': seq<int>, c: int) {
    c !in chain' ==> (0 <= c < |fat| == |fat'| ==> fat'[c] == fat[c]) && (0 <= c < |data| == |data'| ==> data'[c] == data[c])
  }

  ghost predicate Fresh(fat: seq<int>, chain: seq<int>, i: int)
    requires 0 <= i < |chain|
  {
    0 <= chain[i] < |fat| && fat[chain[i]] == 0
  }

  /** Any other file's chain stays a chain, stays clear of the grown one and keeps its bytes. */
  lemma OthersKept(fat: seq<int>, data: seq<seq<Byte>>, chain: seq<int>, fat': seq<int>, data': seq<seq<Byte>>, chain': seq<int>,
                   other: seq<int>, size: int, bytes: seq<Byte>)
    requires Kept(fat, data, chain, fat', data', chain') && IsChain(fat, other) && size > 0 && Holds(data, other, size, bytes)
    requires forall i :: 0 <= i < |other| ==> other[i] !in chain
    ensures IsChain(fat', other) && Holds(data', other, size, bytes)
    ensures forall i :: 0 <= i < |other| ==> other[i] !in chain'
  {
    forall i, j | 0 <= i < |other| && 0 <= j < |chain'| ensures chain'[j] != other[i] {
      LinkedOn(fat, other, i);
      if j < |chain| { assert chain'[j] == chain[j] && other[i] !in chain; } else { assert Fresh(fat, chain', j); }
    }
    forall i | 0 <= i < |other| ensures fat'[other[i]] == fat[other[i]] { assert KeptAt(fat, data, fat', data', chain', other[i]); }
    forall i | 0 <= i < |bytes| ensures ByteAt(data', other, size, i, bytes[i]) {
      assert ByteAt(data, other, size, i, bytes[i]);
      assert KeptAt(fat, data, fat', data', chain', other[i / size]);
    }
  }

  /** The disk is full. */
  ghost predicate NoneFree(fat: seq<int>) { forall x :: 2 <= x < |fat| ==> fat[x] != 0 }

  /** A full disk stays full while files only grow. */
  lemma FullStays(fat: seq<int>, data: seq<seq<Byte>>, chain: seq<int>, fat': seq<int>, data': seq<seq<Byte>>, chain': seq<int>)
    requires NoneFree(fat) && Kept(fat, data, chain, fat', data', chain') && (chain' == [] || IsChain(fat', chain'))
    ensures NoneFree(fat')
  {
    forall x | 2 <= x < |fat'| ensures fat'[x] != 0 {
      if x in chain' {
        var i :| 0 <= i < |chain'| && chain'[i] == x;
        LinkedOn(fat', chain', i);
      } else {
        assert KeptAt(fat, data, fat', data', chain', x);
      }
    }
  }

  // ---- The end of a file ---------------------------------------------------------------------

  /** n clusters are just enough: the file ends in the last one, or is empty in its only one. */
  predicate Fits(size: int, n: int, d: int) { (size == 0 && n == 1) || (n >= 1 && (n - 1) * d < size <= n * d) }

  lemma FitsAt(size: int, n: int, d: int)
    requires d > 0 && n >= 1 && Fits(size, n, d)
    ensures size % d == 0 ==> size == 0 || size == n * d
    ensures size % d != 0 ==> size == (n - 1) * d + size % d
  {
    assert n * d == (n - 1) * d + d;
    if size != 0 && size != n * d { DivMod(n - 1, size - (n - 1) * d, d); }
    if size == n * d { DivMod(n, 0, d); }
  }

  /**
   A file being appended to: chain[k] is the cluster of the handle and holds the last byte; at most one
   cluster has been linked behind it in advance, and only when the next byte goes there.
   */
  ghost predicate Cursor(fat: seq<int>, data: seq<seq<Byte>>, chain: seq<int>, d: int, bytes: seq<Byte>, k: int) {
    && IsChain(fat, chain) && |data| == |fat| && d > 0 && DataOk(data, d) && Holds(data, chain, d, bytes)
    && 0 <= k < |chain| && Fits(|bytes|, k + 1, d)
    && (|chain| == k + 1 || (|chain| == k + 2 && |bytes| == (k + 1) * d))
  }

  /** The cluster for the next byte has been found: chain[k] with r bytes of it in use, and nothing behind it. */
  ghost predicate Located(fat: seq<int>, data: seq<seq<Byte>>, chain: seq<int>, d: int, bytes: seq<Byte>, k: int, r: int) {
    && IsChain(fat, chain) && |data| == |fat| && d > 0 && DataOk(data, d) && Holds(data, chain, d, bytes)
    && |chain| == k + 1 && |bytes| == k * d + r && 0 <= r < d
  }

  lemma KeptTrans(fat: seq<int>, data: seq<seq<Byte>>, chain: seq<int>, fat1: seq<int>, data1: seq<seq<Byte>>, chain1: seq<int>,
                  fat2: seq<int>, data2: seq<seq<Byte>>, chain2: seq<int>)
    requires Kept(fat, data, chain, fat1, data1, chain1) && Kept(fat1, data1, chain1, fat2, data2, chain2) && NoDup(chain2)
    ensures Kept(fat, data, chain, fat2, data2, chain2)
  {
    forall c ensures KeptAt(fat, data, fat2, data2, chain2, c) {
      assert KeptAt(fat, data, fat1, data1, chain1, c) && KeptAt(fat1, data1, fat2, data2, chain2, c);
    }
    forall i | |chain| <= i < |chain2| ensures Fresh(fat, chain2, i) {
      if i < |chain1| {
        assert Fresh(fat, chain1, i) && chain1[i] == chain2[i];
      } else {
        assert Fresh(fat1, chain2, i);
        forall j | 0 <= j < |chain1| ensures chain1[j] != chain2[i] { assert chain1[j] == chain2[j]; }
        assert KeptAt(fat, data, fat1, data1, chain1, chain2[i]);
      }
    }
  }

  lemma KeptSelf(fat: seq<int>, data: seq<seq<Byte>>, chain: seq<int>)
    ensures Kept(fat, data, chain, fat, data, chain)
  {
    forall c ensures KeptAt(fat, data, fat, data, chain, c) { }
  }

  lemma KeptPut(fat: seq<int>, data: seq<seq<Byte>>, chain: seq<int>, i: int, buf: seq<Byte>)
    requires 0 <= i < |chain| && 0 <= chain[i] < |data|
    ensures Kept(fat, data, chain, fat, data[chain[i] := buf], chain)
  {
    var data' := data[chain[i] := buf];
    forall c ensures KeptAt(fat, data, fat, data', chain, c) { }
  }

  lemma KeptLink(fat: seq<int>, data: seq<seq<Byte>>, chain: seq<int>, c: int)
    requires 0 <= c < |fat| && fat[c] == 0
    ensures chain == [] ==> Kept(fat, data, chain, fat[c := LAST], data, chain + [c])
    ensures chain != [] && 0 <= chain[|chain| - 1] < |fat| ==> Kept(fat, data, chain, fat[c := LAST][chain[|chain| - 1] := c], data, chain + [c])
  {
    var chain' := chain + [c];
    assert c == chain'[|chain|];
    forall i | |chain| <= i < |chain'| ensures Fresh(fat, chain', i) { }
    if chain == [] {
      var fat' := fat[c := LAST];
      forall x ensures KeptAt(fat, data, fat', data, chain', x) { }
    } else if 0 <= chain[|chain| - 1] < |fat| {
      assert chain[|chain| - 1] == chain'[|chain| - 1];
      var fat' := fat[c := LAST][chain[|chain| - 1] := c];
      forall x ensures KeptAt(fat, data, fat', data, chain', x) { }
    }
  }

  /** The located cluster takes a chunk. */
  lemma PutPart(fat: seq<int>, data: seq<seq<Byte>>, chain: seq<int>, d: int, bytes: seq<Byte>, k: int, r: int, chunk: seq<Byte>, buf: seq<Byte>)
    requires Located(fat, data, chain, d, bytes, k, r) && 0 < |chunk| && r + |chunk| <= d == |buf|
    requires buf[..r] == data[chain[k]][..r] && buf[r..r + |chunk|] == chunk
    ensures Cursor(fat, data[chain[k] := buf], chain, d, bytes + chunk, k) && Kept(fat, data, chain, fat, data[chain[k] := buf], chain)
  {
    forall i | 0 <= i < r ensures buf[i] == data[chain[k]][i] { assert buf[..r][i] == data[chain[k]][..r][i]; }
    forall i | 0 <= i < |chunk| ensures buf[r + i] == chunk[i] { assert buf[r..r + |chunk|][i] == chunk[i]; }
    PutChunk(data, chain, d, bytes, k, r, chunk, buf);
    KeptPut(fat, data, chain, k, buf);
    assert (k + 1) * d == k * d + d;
  }

  /** Of a run of clusters that lie side by side on disk, the one at index q takes the next full cluster of bytes. */
  lemma PutRun(fat: seq<int>, data: seq<seq<Byte>>, chain: seq<int>, d: int, bytes: seq<Byte>, q: int, chunk: seq<Byte>)
    requires IsChain(fat, chain) && |data| == |fat| && d > 0 && DataOk(data, d) && Holds(data, chain, d, bytes)
    requires 0 <= q < |chain| && |bytes| == q * d && |chunk| == d
    ensures DataOk(data[chain[q] := chunk], d) && Holds(data[chain[q] := chunk], chain, d, bytes + chunk)
    ensures |bytes + chunk| == (q + 1) * d && Kept(fat, data, chain, fat, data[chain[q] := chunk], chain)
  {
    PutChunk(data, chain, d, bytes, q, 0, chunk, chunk);
    KeptPut(fat, data, chain, q, chunk);
    assert (q + 1) * d == q * d + d;
  }

  // ---- Positioning ---------------------------------------------------------------------------

  /** The chain index a seek leaves the handle on, in a chain of n clusters. */
  function SeekIndex(position: int, n: int, d: int): int
    requires d > 0 && n > 0
  {
    if position / d < n then position / d else n - 1
  }

  /** The chain index the write loop uses when it finds the handle on index i. */
  function WriteIndex(i: int, position: int, d: int): int
    requires d > 0
  {
    if position % d == 0 && position > 0 then i + 1 else i
  }

  /**
   A write after a seek goes to the cluster that holds the position, except that an interior cluster boundary
   takes it one cluster too far: the write index is right exactly for position 0, for positions inside a
   cluster, and for the end of the last cluster.
   */
  lemma SeekThenWrite(position: int, n: int, d: int)
    requires d > 0 && n > 0 && 0 <= position <= n * d
    ensures WriteIndex(SeekIndex(position, n, d), position, d) == position / d
            <==> position == 0 || position % d != 0 || position == n * d
  {
    assert position == (position / d) * d + position % d;
    if position / d >= n { MulMono(n, position / d, d); } else { MulMono(position / d, n, d); }
    DivMod(n, 0, d);
  }

  lemma SeekPast(position: int, i: int, d: int)
    requires d > 0 && 0 <= i && i * d + d <= position
    ensures position / d > i
  {
    assert (i + 1) * d == i * d + d;
    if position / d <= i { MulMono(position / d, i, d); }
  }

  /** A seek to the end of a file whose chain just fits it leaves the handle ready to append. */
  lemma SeekToEnd(size: int, n: int, d: int)
    requires d > 0 && n > 0 && Fits(size, n, d)
    ensures SeekIndex(size, n, d) == n - 1
  {
    assert n * d == (n - 1) * d + d;
    if size == n * d { DivMod(n, 0, d); } else { DivMod(n - 1, if size == 0 then 0 else size - (n - 1) * d, d); }
  }

  class Handle {
    var cluster: int
    var start: int
    var position: int
    var size: int
    var entryStart: int   // what the directory entry records
    var entrySize: int
  }

  class Volume {
    const clusterSize: int
    const burst: bool     // the disk offers multi-sector writes
    const table: Table
    var data: seq<seq<Byte>>

    ghost predicate Valid()
      reads this, table
    {
      table.Valid() && clusterSize > 0 && |data| == |table.Fat()| < CHAIN_END && DataOk(data, clusterSize)
    }

    constructor (table: Table, clusterSize: int, burst: bool, data: seq<seq<Byte>>)
      requires table.Valid() && clusterSize > 0 && |data| == |table.Fat()| < CHAIN_END && DataOk(data, clusterSize)
      ensures Valid() && this.table == table && this.clusterSize == clusterSize && this.data == data
    {
      this.table, this.clusterSize, this.burst, this.data := table, clusterSize, burst, data;
    }

    /** One more cluster is allocated and linked behind the last cluster of a chain. */
    method Extend(last: int, ghost chain: seq<int>) returns (c: int)
      requires Valid() && IsChain(table.Fat(), chain) && chain[|chain| - 1] == last
      modifies table
      ensures Valid()
      ensures c == 0 ==> table.Fat() == old(table.Fat()) && NoneFree(table.Fat())
      ensures c != 0 ==> c !in chain && IsChain(table.Fat(), chain + [c])
      ensures c != 0 ==> Kept(old(table.Fat()), data, chain, table.Fat(), data, chain + [c])
    {
      ghost var fat := table.Fat();
      c := table.AllocateCluster();
      if c != 0 {
        ChainGrows(fat, chain, c);
        table.SetFatEntry(last, c);
        KeptLink(fat, data, chain, c);
      }
    }

    /** The move to the next cluster at the top of the write loop, from whatever cluster chain[i] the handle is on. */
    method Advance(h: Handle, ghost chain: seq<int>, ghost i: int) returns (full: bool, ghost chain': seq<int>)
      requires Valid() && IsChain(table.Fat(), chain) && 0 <= i < |chain| && h.cluster == chain[i]
      modifies h`cluster, table
      ensures Valid() && Kept(old(table.Fat()), data, chain, table.Fat(), data, chain') && IsChain(table.Fat(), chain')
      ensures full ==> chain' == chain && h.cluster == old(h.cluster) && table.Fat() == old(table.Fat())
                       && i == |chain| - 1 && NoneFree(table.Fat())
      ensures !full ==> var j := WriteIndex(i, h.position, clusterSize);
                0 <= j < |chain'| && h.cluster == chain'[j] && (|chain'| == |chain| || |chain'| == j + 1 == |chain| + 1)
      ensures full ==> h.position % clusterSize == 0 && h.position > 0
    {
      full, chain' := false, chain;
      KeptSelf(table.Fat(), data, chain);
      if h.position % clusterSize == 0 && h.position > 0 {
        ChainNext(table.Fat(), chain, i);
        var next := table.NextCluster(h.cluster);
        if next >= CHAIN_END {
          next := Extend(h.cluster, chain);
          if next == 0 {
            full := true;
            return;
          }
          chain' := chain + [next];
        }
        h.cluster := next;
      }
    }

    /** Moves the handle to the cluster that takes the next byte, allocating one when the chain is used up. */
    method Locate(h: Handle, ghost chain: seq<int>, ghost bytes: seq<Byte>, ghost k: int)
      returns (offset: int, full: bool, ghost chain': seq<int>, ghost k': int)
      requires Valid() && Cursor(table.Fat(), data, chain, clusterSize, bytes, k)
      requires h.cluster == chain[k] && h.position == |bytes|
      modifies h`cluster, table
      ensures Valid() && Kept(old(table.Fat()), data, chain, table.Fat(), data, chain')
      ensures full ==> chain' == chain && k' == k && h.cluster == old(h.cluster) && table.Fat() == old(table.Fat())
                       && |chain| == k + 1 && NoneFree(table.Fat())
      ensures !full ==> Located(table.Fat(), data, chain', clusterSize, bytes, k', offset) && h.cluster == chain'[k']
    {
      offset := h.position % clusterSize;
      FitsAt(|bytes|, k + 1, clusterSize);
      full, chain' := Advance(h, chain, k);
      k' := if full then k else WriteIndex(k, h.position, clusterSize);
      HoldsLonger(data, chain, chain', clusterSize, bytes);
    }

    /** Positions a handle: clamped to the size, on the cluster reached by counting whole clusters, never past the last. */
    method Seek(h: Handle, target: int, ghost chain: seq<int>)
      requires Valid() && IsChain(table.Fat(), chain) && h.start == chain[0] && 0 <= target && 0 <= h.size
      modifies h`cluster, h`position, table`cached, table`buf
      ensures Valid() && table.Fat() == old(table.Fat())
      ensures h.position == (if target > h.size then h.size else target)
      ensures h.cluster == chain[SeekIndex(h.position, |chain|, clusterSize)]
    {
      h.position := if target > h.size then h.size else target;
      h.cluster := h.start;
      var pos := 0;
      ghost var i := 0;
      while pos + clusterSize <= h.position
        invariant Valid() && table.Fat() == old(table.Fat()) && 0 <= i < |chain| && h.cluster == chain[i]
        invariant pos == i * clusterSize <= h.position && h.position == (if target > h.size then h.size else target)
      {
        ChainNext(table.Fat(), chain, i);
        var next := table.NextCluster(h.cluster);
        if next >= CHAIN_END {
          SeekPast(h.position, i, clusterSize);
          return;
        }
        h.cluster := next;
        pos := pos + clusterSize;
        assert (i + 1) * clusterSize == i * clusterSize + clusterSize;
        i := i + 1;
      }
      DivMod(i, h.position - pos, clusterSize);
    }

    static method CopyInto(buf: seq<Byte>, offset: int, chunk: seq<Byte>) returns (out: seq<Byte>)
      requires 0 <= offset && offset + |chunk| <= |buf|
      ensures out == buf[..offset] + chunk + buf[offset + |chunk|..]
    {
      out := buf;
      for i := 0 to |chunk|
        invariant out == buf[..offset] + chunk[..i] + buf[offset + i..]
      {
        out := out[offset + i := chunk[i]];
      }
    }

    /** Part of one cluster: bytes before the end of file are read back, a fresh cluster is zero-filled. */
    method WritePart(h: Handle, offset: int, src: seq<Byte>, from: int, ghost chain: seq<int>, ghost bytes: seq<Byte>, ghost k: int)
      returns (copied: int)
      requires Valid() && Located(table.Fat(), data, chain, clusterSize, bytes, k, offset) && h.cluster == chain[k]
      requires 0 <= from < |src| && h.position == h.size == |bytes|
      modifies h`position, h`size, this`data
      ensures Valid() && 0 < copied <= |src| - from && h.position == h.size == |bytes| + copied
      ensures Cursor(table.Fat(), data, chain, clusterSize, bytes + src[from..from + copied], k) && |chain| == k + 1
      ensures Kept(table.Fat(), old(data), chain, table.Fat(), data, chain)
      ensures var was := if offset > 0 then old(data)[h.cluster] else seq(clusterSize, _ => 0);
              offset + copied <= clusterSize
              && data == old(data)[h.cluster := was[..offset] + src[from..from + copied] + was[offset + copied..]]
    {
      copied := |src| - from;
      if copied > clusterSize - offset { copied := clusterSize - offset; }
      var buf: seq<Byte> := if offset > 0 then data[h.cluster] else seq(clusterSize, _ => 0);
      buf := CopyInto(buf, offset, src[from..from + copied]);
      PutPart(table.Fat(), data, chain, clusterSize, bytes, k, offset, src[from..from + copied], buf);
      data := data[h.cluster := buf];
      h.position := h.position + copied;
      if h.position > h.size { h.size := h.position; }
    }

    /** The successor of the last cluster of a chain, allocated when there is none; 0 when the disk is full. */
    method Follow(current: int, ghost chain: seq<int>, ghost bytes: seq<Byte>) returns (next: int)
      requires Valid() && IsChain(table.Fat(), chain) && chain[|chain| - 1] == current && Holds(data, chain, clusterSize, bytes)
      modifies table
      ensures Valid()
      ensures next == 0 ==> table.Fat() == old(table.Fat()) && NoneFree(table.Fat())
      ensures next != 0 ==> IsChain(table.Fat(), chain + [next]) && Holds(data, chain + [next], clusterSize, bytes)
      ensures next != 0 ==> Kept(old(table.Fat()), data, chain, table.Fat(), data, chain + [next])
    {
      ChainNext(table.Fat(), chain, |chain| - 1);
      next := table.NextCluster(current);
      if next >= CHAIN_END {
        next := Extend(current, chain);
      } else {
        assert false;
      }
      if next != 0 { HoldsLonger(data, chain, chain + [next], clusterSize, bytes); }
    }

    /** Looks for clusters that lie side by side behind the first, linking fresh ones; a fresh one elsewhere stays linked for later. */
    method FindRun(first: int, clusters: int, ghost chain: seq<int>, ghost bytes: seq<Byte>)
      returns (count: int, ghost chain': seq<int>)
      requires Valid() && IsChain(table.Fat(), chain) && chain[|chain| - 1] == first && clusters >= 1
      requires Holds(data, chain, clusterSize, bytes)
      modifies table
      ensures Valid() && IsChain(table.Fat(), chain') && Holds(data, chain', clusterSize, bytes)
      ensures 1 <= count <= clusters && SideBySide(chain', |chain| - 1, count)
      ensures |chain'| == |chain| - 1 + count || (|chain'| == |chain| + count && count < clusters)
      ensures count < clusters ==>
                || (|chain'| == |chain| + count && chain'[|chain'| - 1] != chain'[|chain'| - 2] + 1)
                || (|chain'| == |chain| - 1 + count && NoneFree(table.Fat()))
      ensures Kept(old(table.Fat()), data, chain, table.Fat(), data, chain')
    {
      ghost var fat0 := table.Fat();
      count, chain' := 1, chain;
      KeptSelf(fat0, data, chain);
      var current := first;
      while count < clusters
        invariant Valid() && IsChain(table.Fat(), chain') && Holds(data, chain', clusterSize, bytes)
        invariant 1 <= count <= clusters && |chain'| == |chain| - 1 + count && current == chain'[|chain'| - 1]
        invariant SideBySide(chain', |chain| - 1, count)
        invariant Kept(fat0, data, chain, table.Fat(), data, chain')
      {
        ghost var fat1, chain1 := table.Fat(), chain';
        var next := Follow(current, chain1, bytes);
        if next == 0 { break; }
        chain' := chain1 + [next];
        KeptTrans(fat0, data, chain, fat1, data, chain1, table.Fat(), data, chain');
        if next != current + 1 { break; }
        current := next;
        count := count + 1;
      }
    }

    /** The multi-sector write of a run: cluster by cluster the bytes land in chain order. */
    method WriteRun(first: int, count: int, src: seq<Byte>, from: int, ghost chain: seq<int>, ghost bytes: seq<Byte>, ghost k: int)
      requires Valid() && IsChain(table.Fat(), chain) && Holds(data, chain, clusterSize, bytes)
      requires 0 <= k < |chain| && |bytes| == k * clusterSize && chain[k] == first && count >= 1
      requires SideBySide(chain, k, count) && 0 <= from && from + count * clusterSize <= |src|
      modifies this`data
      ensures Valid() && Holds(data, chain, clusterSize, bytes + src[from..from + count * clusterSize])
      ensures Kept(table.Fat(), old(data), chain, table.Fat(), data, chain)
    {
      ghost var now := bytes;
      KeptSelf(table.Fat(), data, chain);
      var at := from;
      for t := 0 to count
        invariant Valid() && at == from + t * clusterSize && Holds(data, chain, clusterSize, now)
        invariant now == bytes + src[from..at] && |now| == (k + t) * clusterSize
        invariant Kept(table.Fat(), old(data), chain, table.Fat(), data, chain)
      {
        MulMono(t + 1, count, clusterSize);
        assert (t + 1) * clusterSize == t * clusterSize + clusterSize;
        var chunk := src[at..at + clusterSize];
        PutRun(table.Fat(), data, chain, clusterSize, now, k + t, chunk);
        KeptTrans(table.Fat(), old(data), chain, table.Fat(), data, chain, table.Fat(), data[first + t := chunk], chain);
        data := data[first + t := chunk];
        assert src[from..at] + chunk == src[from..at + clusterSize];
        assert now + chunk == bytes + src[from..at + clusterSize];
        now := now + chunk;
        at := at + clusterSize;
      }
    }

    /** Whole clusters in one go, at most 64 and only while they lie side by side. */
    method WriteBurst(h: Handle, src: seq<Byte>, from: int, ghost chain: seq<int>, ghost bytes: seq<Byte>, ghost k: int)
      returns (copied: int, ghost chain': seq<int>, ghost k': int)
      requires Valid() && Located(table.Fat(), data, chain, clusterSize, bytes, k, 0) && h.cluster == chain[k]
      requires 0 <= from && from + clusterSize <= |src| && h.position == h.size == |bytes|
      modifies h`position, h`size, h`cluster, this`data, table
      ensures Valid() && 0 < copied <= |src| - from && h.position == h.size == |bytes| + copied
      ensures Cursor(table.Fat(), data, chain', clusterSize, bytes + src[from..from + copied], k') && h.cluster == chain'[k']
      ensures |chain'| == k' + 2 ==> from + copied < |src|
      ensures copied <= 64 * clusterSize && copied % clusterSize == 0
      ensures Kept(old(table.Fat()), old(data), chain, table.Fat(), data, chain')
    {
      var clusters := (|src| - from) / clusterSize;
      DivLower(|src| - from, clusterSize);
      if clusters > BURST {
        MulMono(BURST, clusters, clusterSize);
        clusters := BURST;
      }
      var first := h.cluster;
      var count;
      count, chain' := FindRun(first, clusters, chain, bytes);
      MulMono(count, clusters, clusterSize);
      MulGe(count, clusterSize);
      copied := count * clusterSize;
      ghost var fat1, data0 := table.Fat(), data;
      WriteRun(first, count, src, from, chain', bytes, k);
      KeptTrans(old(table.Fat()), data0, chain, fat1, data0, chain', table.Fat(), data, chain');
      h.position := h.position + copied;
      if h.position > h.size { h.size := h.position; }
      h.cluster := first + count - 1;
      k' := k + count - 1;
      RunEnd(k, count, clusterSize);
      RunBytes(count, clusterSize);
    }

    /** One round of the append loop. */
    method WriteStep(h: Handle, src: seq<Byte>, from: int, ghost chain: seq<int>, ghost bytes: seq<Byte>, ghost k: int)
      returns (copied: int, ghost chain': seq<int>, ghost k': int)
      requires Valid() && Cursor(table.Fat(), data, chain, clusterSize, bytes, k) && h.cluster == chain[k]
      requires 0 <= from < |src| && h.position == h.size == |bytes|
      modifies h`position, h`size, h`cluster, this`data, table
      ensures Valid() && 0 <= copied <= |src| - from && h.position == h.size == |bytes| + copied
      ensures Cursor(table.Fat(), data, chain', clusterSize, bytes + src[from..from + copied], k') && h.cluster == chain'[k']
      ensures |chain'| == k' + 2 ==> from + copied < |src|
      ensures copied == 0 ==> |chain'| == k' + 1 && NoneFree(table.Fat())
      ensures Kept(old(table.Fat()), old(data), chain, table.Fat(), data, chain')
    {
      var offset, full;
      offset, full, chain', k' := Locate(h, chain, bytes, k);
      if full {
        copied := 0;
        assert bytes + src[from..from] == bytes;
        return;
      }
      ghost var fat2, data2, chain2 := table.Fat(), data, chain';
      copied, chain', k' := WriteLocated(h, offset, src, from, chain2, bytes, k');
      KeptTrans(old(table.Fat()), data2, chain, fat2, data2, chain2, table.Fat(), data, chain');
    }

    method WriteLocated(h: Handle, offset: int, src: seq<Byte>, from: int, ghost chain: seq<int>, ghost bytes: seq<Byte>, ghost k: int)
      returns (copied: int, ghost chain': seq<int>, ghost k': int)
      requires Valid() && Located(table.Fat(), data, chain, clusterSize, bytes, k, offset) && h.cluster == chain[k]
      requires 0 <= from < |src| && h.position == h.size == |bytes|
      modifies h`position, h`size, h`cluster, this`data, table
      ensures Valid() && 0 < copied <= |src| - from && h.position == h.size == |bytes| + copied
      ensures Cursor(table.Fat(), data, chain', clusterSize, bytes + src[from..from + copied], k') && h.cluster == chain'[k']
      ensures |chain'| == k' + 2 ==> from + copied < |src|
      ensures Kept(old(table.Fat()), old(data), chain, table.Fat(), data, chain')
    {
      if offset == 0 && |src| - from >= clusterSize && burst {
        copied, chain', k' := WriteBurst(h, src, from, chain, bytes, k);
      } else {
        copied := WritePart(h, offset, src, from, chain, bytes, k);
        chain', k' := chain, k;
      }
    }

    /** A file without clusters gets its first one. */
    method FirstCluster(h: Handle) returns (c: int)
      requires Valid()
      modifies h, table
      ensures Valid()
      ensures c == 0 ==> table.Fat() == old(table.Fat()) && NoneFree(table.Fat())
      ensures c == 0 ==> unchanged(h)
      ensures c != 0 ==> Cursor(table.Fat(), data, [c], clusterSize, [], 0) && Kept(old(table.Fat()), data, [], table.Fat(), data, [c])
      ensures c != 0 ==> h.start == h.cluster == c && h.position == h.size == 0
    {
      ghost var fat0 := table.Fat();
      c := table.AllocateCluster();
      if c != 0 {
        ChainStarts(fat0, c);
        KeptLink(fat0, data, [], c);
        assert [] + [c] == [c];
        h.start, h.cluster, h.position, h.size := c, c, 0, 0;
        h.entryStart, h.entrySize := c, 0;
      }
    }

    /**
     Appends at the end of a file. The chain afterwards holds the old bytes followed by exactly the bytes
     reported written; a short count means that no cluster of the disk is free.
     */
    method Write(h: Handle, src: seq<Byte>, ghost chain: seq<int>, ghost bytes: seq<Byte>)
      returns (written: int, ghost chain': seq<int>)
      requires Valid() && AtEnd(this, h, chain, bytes) && |src| < 0x8000_0000 && |bytes| + |src| < 0x1_0000_0000
      modifies h, this`data, table
      ensures Valid() && 0 <= written <= |src| && AtEnd(this, h, chain', bytes + src[..written])
      ensures written < |src| ==> NoneFree(table.Fat())
      ensures Kept(old(table.Fat()), old(data), chain, table.Fat(), data, chain')
      ensures written > 0 ==> h.entryStart == h.start && h.entrySize == h.size
    {
      assert bytes + src[..0] == bytes;
      if h.cluster == 0 {
        var c := FirstCluster(h);
        if c == 0 {
          KeptSelf(table.Fat(), data, chain);
          return 0, chain;
        }
        ghost var fat1 := table.Fat();
        written, chain' := WriteLoop(h, src, [c], bytes, 0);
        KeptTrans(old(table.Fat()), old(data), chain, fat1, old(data), [c], table.Fat(), data, chain');
      } else {
        written, chain' := WriteLoop(h, src, chain, bytes, |chain| - 1);
      }
      if written > 0 {
        h.entrySize := h.size;
        if h.start != 0 { h.entryStart := h.start; }
      }
    }

    method WriteLoop(h: Handle, src: seq<Byte>, ghost chain: seq<int>, ghost bytes: seq<Byte>, ghost k0: int)
      returns (written: int, ghost chain': seq<int>)
      requires Valid() && Cursor(table.Fat(), data, chain, clusterSize, bytes, k0) && |chain| == k0 + 1 && h.cluster == chain[k0]
      requires h.position == h.size == |bytes|
      modifies h`position, h`size, h`cluster, this`data, table
      ensures Valid() && 0 <= written <= |src| && |chain'| >= 1 && h.position == h.size == |bytes| + written
      ensures Cursor(table.Fat(), data, chain', clusterSize, bytes + src[..written], |chain'| - 1) && h.cluster == chain'[|chain'| - 1]
      ensures written < |src| ==> NoneFree(table.Fat())
      ensures Kept(old(table.Fat()), old(data), chain, table.Fat(), data, chain')
    {
      written, chain' := 0, chain;
      ghost var k := k0;
      KeptSelf(table.Fat(), data, chain);
      assert bytes + src[..0] == bytes;
      while written < |src|
        invariant Valid() && 0 <= written <= |src| && h.position == h.size == |bytes| + written
        invariant Cursor(table.Fat(), data, chain', clusterSize, bytes + src[..written], k) && h.cluster == chain'[k]
        invariant |chain'| == k + 2 ==> written < |src|
        invariant Kept(old(table.Fat()), old(data), chain, table.Fat(), data, chain')
      {
        ghost var fat1, data1, chain1 := table.Fat(), data, chain';
        var copied;
        copied, chain', k := WriteStep(h, src, written, chain1, bytes + src[..written], k);
        KeptTrans(old(table.Fat()), old(data), chain, fat1, data1, chain1, table.Fat(), data, chain');
        assert bytes + src[..written] + src[written..written + copied] == bytes + src[..written + copied];
        if copied == 0 { break; }
        written := written + copied;
      }
    }

    /** One turn of the read loop: the rest of the cluster at hand, of the file or of the request, whichever ends first. */
    method ReadPart(h: Handle, want: int, ghost chain: seq<int>, ghost bytes: seq<Byte>, ghost q0: int) returns (part: seq<Byte>, ghost q: int)
      requires Valid() && 0 < want && Reading(this, h, chain, bytes, q0) && h.position < h.size
      modifies h`cluster, h`position, table`cached, table`buf
      ensures Valid() && table.Fat() == old(table.Fat()) && Reading(this, h, chain, bytes, q)
      ensures old(h.position) < h.position <= old(h.position) + want && part == bytes[old(h.position)..h.position]
    {
      q := q0;
      var offset := h.position % clusterSize;
      var copied := want;
      var available := clusterSize - offset;
      if h.size - h.position < available { available := h.size - h.position; }
      if copied > available { copied := available; }
      DivMod(q, h.position - q * clusterSize, clusterSize);
      SliceRead(data, chain, clusterSize, bytes, q, offset, copied);
      part := data[h.cluster][offset..offset + copied];
      h.position := h.position + copied;
      assert (q + 1) * clusterSize == q * clusterSize + clusterSize;
      if h.position < h.size { StepRead(data, chain, clusterSize, bytes, q, h.position); }
      if h.position % clusterSize == 0 && h.position < h.size {
        ChainNext(table.Fat(), chain, q);
        h.cluster := table.NextCluster(h.cluster);
        q := q + 1;
      }
    }

    /** Reads from the handle's position: exactly the bytes there, up to the size asked for or the end of the file. */
    method Read(h: Handle, want: int, ghost chain: seq<int>, ghost bytes: seq<Byte>, ghost q0: int) returns (out: seq<Byte>, ghost q: int)
      requires Valid() && 0 <= want && Reading(this, h, chain, bytes, q0)
      modifies h`cluster, h`position, table`cached, table`buf
      ensures Valid() && table.Fat() == old(table.Fat()) && Reading(this, h, chain, bytes, q)
      ensures h.position == (if old(h.position) + want < |bytes| then old(h.position) + want else |bytes|)
      ensures out == bytes[old(h.position)..h.position]
    {
      out, q := [], q0;
      while |out| < want && h.position < h.size
        invariant Valid() && table.Fat() == old(table.Fat()) && Reading(this, h, chain, bytes, q) && |out| <= want
        invariant h.position == old(h.position) + |out| && out == bytes[old(h.position)..h.position]
        decreases h.size - h.position
      {
        var part;
        part, q := ReadPart(h, want - |out|, chain, bytes, q);
        out := out + part;
        if h.cluster >= CHAIN_END { break; }
      }
    }

    /** One more append after others. */
    method WriteNext(h: Handle, src: seq<Byte>, ghost chain: seq<int>, ghost bytes: seq<Byte>,
                     ghost fat0: seq<int>, ghost data0: seq<seq<Byte>>, ghost chain0: seq<int>) returns (n: int, ghost chain': seq<int>)
      requires Valid() && AtEnd(this, h, chain, bytes) && |src| < 0x8000_0000 && |bytes| + |src| < 0x1_0000_0000
      requires Kept(fat0, data0, chain0, table.Fat(), data, chain)
      modifies h, this`data, table
      ensures Valid() && 0 <= n <= |src| && AtEnd(this, h, chain', bytes + src[..n])
      ensures n < |src| || NoneFree(old(table.Fat())) ==> NoneFree(table.Fat())
      ensures Kept(fat0, data0, chain0, table.Fat(), data, chain')
    {
      ghost var fat1, data1 := table.Fat(), data;
      n, chain' := Write(h, src, chain, bytes);
      if NoneFree(fat1) { FullStays(fat1, data1, chain, table.Fat(), data, chain'); }
      KeptAcross(fat0, data0, chain0, fat1, data1, chain, table.Fat(), data, chain');
    }

    /** Any number of appends of any sizes, then a read from the start, which returns the bytes reported written. */
    method AppendAll(h: Handle, bufs: seq<seq<Byte>>, ghost chain: seq<int>, ghost bytes: seq<Byte>)
      returns (counts: seq<int>, ghost chain': seq<int>)
      requires Valid() && AtEnd(this, h, chain, bytes) && |bytes| + Total(bufs) < 0x1_0000_0000
      requires forall i :: 0 <= i < |bufs| ==> |bufs[i]| < 0x8000_0000
      modifies h, this`data, table
      ensures Valid() && Reported(bufs, counts) && AtEnd(this, h, chain', bytes + Written(bufs, counts))
      ensures FellShort(bufs, counts) ==> NoneFree(table.Fat())
      ensures Kept(old(table.Fat()), old(data), chain, table.Fat(), data, chain')
    {
      counts, chain' := [], chain;
      ghost var now := bytes;
      KeptSelf(table.Fat(), data, chain);
      for i := 0 to |bufs|
        invariant |counts| == i && Valid() && Reported(bufs[..i], counts) && AtEnd(this, h, chain', now)
        invariant now == bytes + Written(bufs[..i], counts) && |now| <= |bytes| + Total(bufs[..i])
        invariant FellShort(bufs[..i], counts) ==> NoneFree(table.Fat())
        invariant Kept(old(table.Fat()), old(data), chain, table.Fat(), data, chain')
      {
        TotalSplit(bufs, i);
        var n;
        n, chain' := WriteNext(h, bufs[i], chain', now, old(table.Fat()), old(data), chain);
        WrittenMore(bufs, i, counts, n, bytes);
        now := now + bufs[i][..n];
        counts := counts + [n];
      }
      assert bufs[..|bufs|] == bufs;
    }

    /** An append to one of several open files leaves all of them at their ends and apart. */
    method AppendTo(hs: seq<Handle>, k: int, src: seq<Byte>, ghost files: seq<File>) returns (n: int, ghost files': seq<File>)
      requires Valid() && NoDup(hs) && FilesAtEnd(this, hs, files) && FilesApart(files) && 0 <= k < |hs|
      requires |src| < 0x8000_0000 && |files[k].bytes| + |src| < 0x1_0000_0000
      modifies hs[k], this`data, table
      ensures Valid() && FilesAtEnd(this, hs, files') && FilesApart(files') && 0 <= n <= |src|
      ensures |files'| == |files| && files' == files[k := File(files'[k].chain, files[k].bytes + src[..n])]
      ensures n < |src| || NoneFree(old(table.Fat())) ==> NoneFree(table.Fat())
    {
      ghost var chain0, fat0, data0 := files[k].chain, table.Fat(), data;
      assert FileAt(this, hs, files, k);
      forall j | 0 <= j < |hs| && j != k ensures Ends(fat0, data0, clusterSize, hs[j].start, hs[j].cluster, files[j].chain, files[j].bytes)
        ensures ClearOf(files[j].chain, chain0) && hs[j] != hs[k] && hs[j].position == hs[j].size == |files[j].bytes|
      {
        assert FileAt(this, hs, files, j) && PairApart(files, j, k);
      }
      ghost var chain;
      n, chain := Write(hs[k], src, chain0, files[k].bytes);
      if NoneFree(fat0) { FullStays(fat0, data0, chain0, table.Fat(), data, chain); }
      files' := files[k := File(chain, files[k].bytes + src[..n])];
      forall j | 0 <= j < |hs| ensures FileAt(this, hs, files', j) && (j != k ==> ClearOf(files[j].chain, chain)) {
        if j != k { OtherEnds(fat0, data0, chain0, table.Fat(), data, chain, clusterSize, hs[j].start, hs[j].cluster, files[j]); }
      }
      ApartAfter(files, k, files'[k]);
    }

    /** Any number of appends to any of several open files, in any order: every file ends up with its old bytes followed
        by exactly the bytes reported written to it, and no two files ever share a cluster. */
    method AppendMany(hs: seq<Handle>, appends: seq<Append>, ghost files: seq<File>) returns (counts: seq<int>, ghost files': seq<File>)
      requires Valid() && NoDup(hs) && FilesAtEnd(this, hs, files) && FilesApart(files)
      requires forall m :: 0 <= m < |appends| ==> 0 <= appends[m].file < |hs| && |appends[m].src| < 0x8000_0000
      requires forall i :: 0 <= i < |files| ==> |files[i].bytes| + TotalSize(appends) < 0x1_0000_0000
      modifies hs, this`data, table
      ensures Valid() && FilesAtEnd(this, hs, files') && FilesApart(files') && Answers(appends, counts)
      ensures forall i :: 0 <= i < |hs| ==> files'[i].bytes == files[i].bytes + WrittenTo(appends, counts, i)
      ensures AnyShort(appends, counts) ==> NoneFree(table.Fat())
    {
      counts, files' := [], files;
      for m := 0 to |appends|
        invariant Valid() && FilesAtEnd(this, hs, files') && FilesApart(files') && Answers(appends[..m], counts)
        invariant (AnyShort(appends[..m], counts) ==> NoneFree(table.Fat())) && AllHave(files, files', appends[..m], counts)
      {
        ghost var was := files';
        RoomFor(files, was, appends, m, counts);
        var n;
        n, files' := AppendTo(hs, appends[m].file, appends[m].src, was);
        AllHaveMore(files, was, files', appends, m, counts, n);
        counts := counts + [n];
      }
      assert appends[..|appends|] == appends;
      forall i | 0 <= i < |hs| ensures files'[i].bytes == files[i].bytes + WrittenTo(appends, counts, i) {
        assert HasBytes(files, files', appends, counts, i);
      }
    }

    method ReadBack(h: Handle, ghost chain: seq<int>, ghost bytes: seq<Byte>) returns (out: seq<Byte>)
      requires Valid() && AtEnd(this, h, chain, bytes)
      modifies h`cluster, h`position, table`cached, table`buf
      ensures Valid() && out == bytes
    {
      if h.cluster == 0 { return []; }
      Seek(h, 0, chain);
      ghost var q;
      out, q := Read(h, h.size, chain, bytes, 0);
    }
  }

  /** A handle that reads: while bytes are left, it is on the cluster that holds the next one. */
  ghost predicate Reading(v: Volume, h: Handle, chain: seq<int>, bytes: seq<Byte>, q: int)
    requires v.Valid()
    reads v, v.table, h
  {
    && IsChain(v.table.Fat(), chain) && Holds(v.data, chain, v.clusterSize, bytes) && h.size == |bytes|
    && 0 <= h.position <= h.size
    && (h.position < h.size ==>
          0 <= q < |chain| && h.cluster == chain[q] && q * v.clusterSize <= h.position < q * v.clusterSize + v.clusterSize)
  }

  lemma SliceRead(data: seq<seq<Byte>>, chain: seq<int>, d: int, bytes: seq<Byte>, q: int, r: int, n: int)
    requires d > 0 && Holds(data, chain, d, bytes) && 0 <= q < |chain| && 0 <= chain[q] < |data| && |data[chain[q]]| == d
    requires 0 <= r && 0 <= n && r + n <= d && q * d + r + n <= |bytes|
    ensures data[chain[q]][r..r + n] == bytes[q * d + r..q * d + r + n]
  {
    assert q * d >= 0;
    var from, there := data[chain[q]][r..r + n], bytes[q * d + r..q * d + r + n];
    forall i | 0 <= i < n ensures from[i] == there[i] {
      DivMod(q, r + i, d);
      assert ByteAt(data, chain, d, q * d + (r + i), bytes[q * d + (r + i)]);
    }
  }

  // Where the next byte is, at or behind the end of the cluster just read.
  lemma StepRead(data: seq<seq<Byte>>, chain: seq<int>, d: int, bytes: seq<Byte>, q: int, position: int)
    requires d > 0 && 0 <= q && Holds(data, chain, d, bytes) && 0 <= position < |bytes| && q * d < position <= q * d + d
    ensures position % d == 0 <==> position == q * d + d
    ensures position % d == 0 ==> q + 1 < |chain|
  {
    assert (q + 1) * d == q * d + d;
    if position < q * d + d { DivMod(q, position - q * d, d); } else { DivMod(q + 1, 0, d); }
    assert ByteAt(data, chain, d, position, bytes[position]);
  }

  function Total(bufs: seq<seq<Byte>>): int { if bufs == [] then 0 else Total(bufs[..|bufs| - 1]) + |bufs[|bufs| - 1]| }

  ghost predicate Reported(bufs: seq<seq<Byte>>, counts: seq<int>) {
    |counts| == |bufs| && forall i :: 0 <= i < |bufs| ==> 0 <= counts[i] <= |bufs[i]|
  }

  /** The bytes reported written, one buffer after the other. */
  ghost function Written(bufs: seq<seq<Byte>>, counts: seq<int>): seq<Byte>
    requires Reported(bufs, counts)
  {
    if bufs == [] then [] else
      var n := |bufs| - 1;
      Written(bufs[..n], counts[..n]) + bufs[n][..counts[n]]
  }

  ghost predicate FellShort(bufs: seq<seq<Byte>>, counts: seq<int>)
    requires Reported(bufs, counts)
  {
    exists i :: 0 <= i < |bufs| && counts[i] < |bufs[i]|
  }

  lemma WrittenMore(bufs: seq<seq<Byte>>, i: int, counts: seq<int>, n: int, bytes: seq<Byte>)
    requires 0 <= i < |bufs| && Reported(bufs[..i], counts) && 0 <= n <= |bufs[i]|
    ensures Reported(bufs[..i + 1], counts + [n])
    ensures bytes + Written(bufs[..i + 1], counts + [n]) == bytes + Written(bufs[..i], counts) + bufs[i][..n]
    ensures FellShort(bufs[..i + 1], counts + [n]) ==> FellShort(bufs[..i], counts) || n < |bufs[i]|
  {
    assert bufs[..i + 1][..i] == bufs[..i] && (counts + [n])[..i] == counts;
    if FellShort(bufs[..i + 1], counts + [n]) && n == |bufs[i]| {
      var j :| 0 <= j <= i && (counts + [n])[j] < |bufs[..i + 1][j]|;
      assert counts[j] < |bufs[..i][j]|;
    }
  }

  lemma KeptAcross(fat: seq<int>, data: seq<seq<Byte>>, chain: seq<int>, fat1: seq<int>, data1: seq<seq<Byte>>, chain1: seq<int>,
                   fat2: seq<int>, data2: seq<seq<Byte>>, chain2: seq<int>)
    requires Kept(fat, data, chain, fat1, data1, chain1) && Kept(fat1, data1, chain1, fat2, data2, chain2)
    requires chain2 == [] || IsChain(fat2, chain2)
    ensures Kept(fat, data, chain, fat2, data2, chain2)
  {
    KeptTrans(fat, data, chain, fat1, data1, chain1, fat2, data2, chain2);
  }

  lemma {:induction false} TotalSplit(bufs: seq<seq<Byte>>, i: int)
    requires 0 <= i < |bufs|
    ensures Total(bufs[..i]) + |bufs[i]| == Total(bufs[..i + 1]) <= Total(bufs)
    decreases |bufs|
  {
    assert bufs[..i + 1][..i] == bufs[..i];
    var n := |bufs| - 1;
    if i < n {
      TotalSplit(bufs[..n], i);
      assert bufs[..n][..i + 1] == bufs[..i + 1] && bufs[..n][..i] == bufs[..i];
    } else {
      assert bufs[..i + 1] == bufs;
    }
  }

  lemma RunEnd(k: int, count: int, d: int)
    requires d > 0
    ensures (k + count) * d == k * d + count * d && (k + count - 1) * d == (k + count) * d - d
  {
  }

  lemma RunBytes(count: int, d: int)
    requires d > 0 && 0 <= count <= 64
    ensures count * d <= 64 * d && (count * d) % d == 0
  {
    MulMono(count, 64, d);
    DivMod(count, 0, d);
  }

  lemma DivLower(n: int, d: int)
    requires d > 0 && n >= d
    ensures n / d >= 1 && (n / d) * d <= n
  {
  }

  /** A handle at the end of its file: no cluster yet, or the last cluster of a chain that is just long enough. */
  ghost predicate AtEnd(v: Volume, h: Handle, chain: seq<int>, bytes: seq<Byte>)
    requires v.Valid()
    reads v, v.table, h
  {
    h.position == h.size == |bytes| && Ends(v.table.Fat(), v.data, v.clusterSize, h.start, h.cluster, chain, bytes)
  }

  ghost predicate Ends(fat: seq<int>, data: seq<seq<Byte>>, d: int, start: int, cluster: int, chain: seq<int>, bytes: seq<Byte>)
    requires d > 0
  {
    if chain == [] then cluster == 0 && start == 0 && bytes == []
    else && IsChain(fat, chain) && Holds(data, chain, d, bytes)
         && start == chain[0] && cluster == chain[|chain| - 1] && Fits(|bytes|, |chain|, d)
  }

  // ---- Several files -------------------------------------------------------------------------

  /** What the proof knows of an open file. */
  datatype File = File(chain: seq<int>, bytes: seq<Byte>)

  datatype Append = Append(file: int, src: seq<Byte>)

  ghost predicate ClearOf(a: seq<int>, b: seq<int>) { forall i :: 0 <= i < |a| ==> a[i] !in b }

  ghost predicate PairApart(files: seq<File>, i: int, j: int)
    requires 0 <= i < |files| && 0 <= j < |files|
  {
    i != j ==> ClearOf(files[i].chain, files[j].chain)
  }

  /** No two files share a cluster. */
  ghost predicate FilesApart(files: seq<File>) {
    forall i, j {:trigger PairApart(files, i, j)} :: 0 <= i < |files| && 0 <= j < |files| ==> PairApart(files, i, j)
  }

  ghost predicate FileAt(v: Volume, hs: seq<Handle>, files: seq<File>, i: int)
    requires v.Valid() && 0 <= i < |hs| && i < |files|
    reads v, v.table, hs
  {
    AtEnd(v, hs[i], files[i].chain, files[i].bytes)
  }

  ghost predicate FilesAtEnd(v: Volume, hs: seq<Handle>, files: seq<File>)
    requires v.Valid()
    reads v, v.table, hs
  {
    |files| == |hs| && forall i {:trigger FileAt(v, hs, files, i)} :: 0 <= i < |hs| ==> FileAt(v, hs, files, i)
  }

  function TotalSize(appends: seq<Append>): int {
    if appends == [] then 0 else TotalSize(appends[..|appends| - 1]) + |appends[|appends| - 1].src|
  }

  ghost predicate Answers(appends: seq<Append>, counts: seq<int>) {
    |counts| == |appends| && forall k :: 0 <= k < |appends| ==> 0 <= counts[k] <= |appends[k].src|
  }

  /** The bytes reported written to one of the files, in order. */
  ghost function WrittenTo(appends: seq<Append>, counts: seq<int>, i: int): seq<Byte>
    requires Answers(appends, counts)
    decreases |appends|
  {
    if appends == [] then []
    else
      var n := |appends| - 1;
      WrittenTo(appends[..n], counts[..n], i) + if appends[n].file == i then appends[n].src[..counts[n]] else []
  }

  ghost predicate HasBytes(files: seq<File>, files': seq<File>, appends: seq<Append>, counts: seq<int>, i: int)
    requires Answers(appends, counts)
  {
    0 <= i < |files| && i < |files'| && files'[i].bytes == files[i].bytes + WrittenTo(appends, counts, i)
  }

  ghost predicate AllHave(files: seq<File>, files': seq<File>, appends: seq<Append>, counts: seq<int>)
    requires Answers(appends, counts)
  {
    |files'| == |files| && forall i {:trigger HasBytes(files, files', appends, counts, i)} :: 0 <= i < |files| ==> HasBytes(files, files', appends, counts, i)
  }

  ghost predicate AnyShort(appends: seq<Append>, counts: seq<int>)
    requires Answers(appends, counts)
  {
    exists m :: 0 <= m < |appends| && counts[m] < |appends[m].src|
  }

  lemma RoomFor(files: seq<File>, was: seq<File>, appends: seq<Append>, m: int, counts: seq<int>)
    requires 0 <= m < |appends| && 0 <= appends[m].file < |files| && Answers(appends[..m], counts) && AllHave(files, was, appends[..m], counts)
    requires |files[appends[m].file].bytes| + TotalSize(appends) < 0x1_0000_0000
    ensures |was[appends[m].file].bytes| + |appends[m].src| < 0x1_0000_0000
  {
    SizeSplit(appends, m);
    assert HasBytes(files, was, appends[..m], counts, appends[m].file);
    WrittenBound(appends[..m], counts, appends[m].file);
  }

  lemma AllHaveMore(files: seq<File>, was: seq<File>, files': seq<File>, appends: seq<Append>, m: int, counts: seq<int>, n: int)
    requires 0 <= m < |appends| && 0 <= appends[m].file < |files| && Answers(appends[..m], counts) && AllHave(files, was, appends[..m], counts)
    requires 0 <= n <= |appends[m].src| && |files'| == |files|
    requires var k := appends[m].file; files' == was[k := File(files'[k].chain, was[k].bytes + appends[m].src[..n])]
    ensures Answers(appends[..m + 1], counts + [n]) && AllHave(files, files', appends[..m + 1], counts + [n])
    ensures AnyShort(appends[..m + 1], counts + [n]) ==> AnyShort(appends[..m], counts) || n < |appends[m].src|
  {
    var done := appends[..m + 1];
    WrittenToMore(appends, m, counts, n, 0);
    forall i | 0 <= i < |files| ensures HasBytes(files, files', done, counts + [n], i) {
      assert HasBytes(files, was, appends[..m], counts, i);
      WrittenToMore(appends, m, counts, n, i);
    }
    if AnyShort(done, counts + [n]) && n == |appends[m].src| {
      var j :| 0 <= j < |done| && (counts + [n])[j] < |done[j].src|;
      assert counts[j] < |appends[..m][j].src|;
    }
  }

  lemma {:induction false} WrittenBound(appends: seq<Append>, counts: seq<int>, i: int)
    requires Answers(appends, counts)
    ensures |WrittenTo(appends, counts, i)| <= TotalSize(appends)
    decreases |appends|
  {
    if appends != [] {
      var n := |appends| - 1;
      WrittenBound(appends[..n], counts[..n], i);
    }
  }

  lemma {:induction false} SizeSplit(appends: seq<Append>, m: int)
    requires 0 <= m < |appends|
    ensures TotalSize(appends[..m]) + |appends[m].src| <= TotalSize(appends)
    decreases |appends|
  {
    var n := |appends| - 1;
    if m < n {
      SizeSplit(appends[..n], m);
      assert appends[..n][..m] == appends[..m];
    }
  }

  /** A file that is not written to ends where it did. */
  lemma OtherEnds(fat: seq<int>, data: seq<seq<Byte>>, chain: seq<int>, fat': seq<int>, data': seq<seq<Byte>>, chain': seq<int>,
                  d: int, start: int, cluster: int, other: File)
    requires d > 0 && Kept(fat, data, chain, fat', data', chain') && ClearOf(other.chain, chain)
    requires Ends(fat, data, d, start, cluster, other.chain, other.bytes)
    ensures Ends(fat', data', d, start, cluster, other.chain, other.bytes) && ClearOf(other.chain, chain')
  {
    if other.chain != [] { OthersKept(fat, data, chain, fat', data', chain', other.chain, d, other.bytes); }
  }

  lemma ApartAfter(files: seq<File>, k: int, f: File)
    requires FilesApart(files) && 0 <= k < |files| && forall j :: 0 <= j < |files| && j != k ==> ClearOf(files[j].chain, f.chain)
    ensures FilesApart(files[k := f])
  {
    var files' := files[k := f];
    forall i, j | 0 <= i < |files| && 0 <= j < |files| ensures PairApart(files', i, j) {
      assert PairApart(files, i, j);
      if i == k && j != k {
        assert ClearOf(files[j].chain, f.chain);
        forall x | 0 <= x < |f.chain| ensures f.chain[x] !in files[j].chain { }
      }
    }
  }

  lemma WrittenToMore(appends: seq<Append>, m: int, counts: seq<int>, n: int, i: int)
    requires 0 <= m < |appends| && Answers(appends[..m], counts) && 0 <= n <= |appends[m].src|
    ensures Answers(appends[..m + 1], counts + [n])
    ensures WrittenTo(appends[..m + 1], counts + [n], i)
         == WrittenTo(appends[..m], counts, i) + if appends[m].file == i then appends[m].src[..n] else []
  {
    assert appends[..m + 1][..m] == appends[..m] && (counts + [n])[..m] == counts;
  }

  ghost predicate SideBySide(chain: seq<int>, at: int, count: int) {
    0 <= at && at + count <= |chain| && forall j :: at <= j < at + count ==> chain[j] == chain[at] + (j - at)
  }
}
