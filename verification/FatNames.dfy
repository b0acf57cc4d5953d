/**
 Names in FAT directories (fs/fat32.c): the entries that carry a long name, thirteen characters each and last part
 first (Microsoft FAT32 File System Specification, heading "FAT Long Directory Entries"), and the eleven characters
 of a short name. A name is a sequence of bytes, none of them zero.
 */
module FatNames {
  import opened Basics

  const PER_ENTRY := 13
  const BUFFER := 256
  const LAST_FLAG := 0x40
  const UNUSED := 0xFFFF
  const SPACE := 32
  const DOT := 46

  type Bytes = seq<int>

  predicate NameOk(name: Bytes) { 1 <= |name| <= 255 && forall i :: 0 <= i < |name| ==> 1 <= name[i] <= 255 }

  /** A long-name entry: its order, with the flag of the last part, and its characters of sixteen bits. */
  datatype Entry = Entry(order: int, chars: seq<int>)

  function Parts(len: int): int { (len + 12) / PER_ENTRY }

  // ---- Writing -------------------------------------------------------------------------------

  /** The character at some place of a name: itself, the end mark or padding. */
  function CharAt(name: Bytes, i: int): int
    requires i >= 0
  {
    if i < |name| then name[i] else if i == |name| then 0 else UNUSED
  }

  ghost predicate Carries(e: Entry, name: Bytes, part: int) {
    && |e.chars| == PER_ENTRY && part >= 1
    && forall k :: 0 <= k < PER_ENTRY ==> e.chars[k] == CharAt(name, (part - 1) * PER_ENTRY + k)
  }

  /** What the entry of a part carries: thirteen characters of the name, a zero behind the last one, then 0xFFFF. */
  lemma CarriesIs(e: Entry, name: Bytes, part: int, k: int)
    requires Carries(e, name, part) && 0 <= k < 13
    ensures |e.chars| == 13
    ensures var i := 13 * (part - 1) + k; e.chars[k] == if i < |name| then name[i] else if i == |name| then 0 else 0xFFFF
  {
  }

  /** The entries of a name: part n first, marked as the last, and part 1 at the end. */
  ghost predicate EntriesOf(entries: seq<Entry>, name: Bytes) {
    var n := Parts(|name|);
    && |entries| == n
    && forall i :: 0 <= i < n ==> entries[i].order == n - i + (if i == 0 then 0x40 else 0) && Carries(entries[i], name, n - i)
  }

  method WriteEntries(name: Bytes) returns (entries: seq<Entry>)
    requires NameOk(name)
    ensures EntriesOf(entries, name)
  {
    entries := [];
    var n := Parts(|name|);
    for i := 0 to n
      invariant |entries| == i
      invariant forall j :: 0 <= j < i ==>
                  entries[j].order == n - j + (if j == 0 then LAST_FLAG else 0) && Carries(entries[j], name, n - j)
    {
      var order := n - i;
      if i == 0 { order := order + LAST_FLAG; }
      var offset := (n - i - 1) * PER_ENTRY;
      var chars := [];
      for k := 0 to PER_ENTRY
        invariant |chars| == k && forall j :: 0 <= j < k ==> chars[j] == CharAt(name, offset + j)
      {
        var c := UNUSED;
        if offset + k < |name| { c := name[offset + k]; } else if offset + k == |name| { c := 0; }
        chars := chars + [c];
      }
      entries := entries + [Entry(order, chars)];
    }
  }

  function Wiped(): Bytes { seq(BUFFER, _ => 0) }

  // ---- Reading -------------------------------------------------------------------------------

  /** The name in a buffer: what stands before the first zero. */
  function Text(buffer: Bytes): Bytes { if buffer == [] || buffer[0] == 0 then [] else [buffer[0]] + Text(buffer[1..]) }

  lemma {:induction false} TextIs(buffer: Bytes, name: Bytes)
    requires |name| < |buffer| && buffer[|name|] == 0 && forall i :: 0 <= i < |name| ==> buffer[i] == name[i] != 0
    ensures Text(buffer) == name
    decreases |name|
  {
    if name != [] {
      TextIs(buffer[1..], name[1..]);
      assert name == [name[0]] + name[1..];
    }
  }

  /** How many characters of an entry, from one on, stand before the end mark or padding. */
  function Stop(e: Entry, from: int): (n: int)
    requires 0 <= from <= |e.chars|
    ensures from <= n <= |e.chars| && (forall j :: from <= j < n ==> e.chars[j] != 0 && e.chars[j] != UNUSED)
    ensures n < |e.chars| ==> e.chars[n] == 0 || e.chars[n] == UNUSED
    decreases |e.chars| - from
  {
    if from == |e.chars| || e.chars[from] == 0 || e.chars[from] == UNUSED then from else Stop(e, from + 1)
  }

  /** Byte j of the buffer once n characters of an entry were put at an offset. */
  function PutAt(was: int, e: Entry, n: int, offset: int, j: int): int
    requires 0 <= n <= |e.chars|
  {
    if offset <= j < offset + n then e.chars[j - offset] % 256 else if j == offset + n && n < |e.chars| then 0 else was
  }

  /** The buffer with the characters of an entry at their place. */
  function Extracted(buffer: Bytes, e: Entry): Bytes {
    if 1 <= e.order % 32 <= 20
    then seq(|buffer|, j requires 0 <= j < |buffer| => PutAt(buffer[j], e, Stop(e, 0), (e.order % 32 - 1) * PER_ENTRY, j))
    else buffer
  }

  /** What an entry writes stays inside the buffer. */
  predicate InBuffer(e: Entry) {
    |e.chars| == PER_ENTRY
    && (1 <= e.order % 32 <= 20 ==> (e.order % 32 - 1) * PER_ENTRY + Stop(e, 0) + (if Stop(e, 0) < PER_ENTRY then 1 else 0) <= BUFFER)
  }

  /** The characters of one entry go to their place; the first end mark or padding ends the name there. */
  method ExtractChars(e: Entry, buffer: array<int>)
    requires buffer.Length == BUFFER && InBuffer(e)
    modifies buffer
    ensures buffer[..] == Extracted(old(buffer[..]), e)
  {
    var part := e.order % 32;
    if part < 1 || part > 20 { return; }
    var offset := (part - 1) * PER_ENTRY;
    for i := 0 to PER_ENTRY
      invariant i <= Stop(e, 0) && forall j :: 0 <= j < BUFFER ==>
                  buffer[j] == if offset <= j < offset + i then e.chars[j - offset] % 256 else old(buffer[j])
    {
      var c := e.chars[i];
      if c == 0 || c == UNUSED {
        buffer[offset + i] := 0;
        return;
      }
      buffer[offset + i] := c % 256;
    }
  }

  ghost predicate ByteOk(b: int, name: Bytes, j: int) { j >= 0 && b == if j < |name| then name[j] else 0 }

  /** The parts of a name from some part on are in the buffer, and zeros behind the name. */
  ghost predicate Filled(buffer: Bytes, name: Bytes, from: int) {
    && |buffer| == BUFFER && 0 <= from
    && forall j {:trigger ByteOk(buffer[j], name, j)} :: 0 <= j < BUFFER && (from * PER_ENTRY <= j || |name| <= j) ==> ByteOk(buffer[j], name, j)
  }

  lemma PartsBound(len: int)
    requires 1 <= len <= 255
    ensures 1 <= Parts(len) <= 20 && (Parts(len) - 1) * PER_ENTRY < len <= Parts(len) * PER_ENTRY
  {
  }

  /** How many characters of a name one of its parts has. */
  function Has(name: Bytes, part: int): int { if |name| < part * PER_ENTRY then |name| - (part - 1) * PER_ENTRY else PER_ENTRY }

  lemma PartStops(e: Entry, name: Bytes, part: int)
    requires NameOk(name) && 1 <= part <= Parts(|name|) && Carries(e, name, part) && e.order % 32 == part
    ensures Stop(e, 0) == Has(name, part) && InBuffer(e)
  {
    PartsBound(|name|);
    var n, s := Has(name, part), Stop(e, 0);
    assert s < PER_ENTRY ==> e.chars[s] == CharAt(name, (part - 1) * PER_ENTRY + s);
    assert n < PER_ENTRY ==> e.chars[n] == CharAt(name, (part - 1) * PER_ENTRY + n);
  }

  lemma FilledMore(was: Bytes, e: Entry, name: Bytes, part: int)
    requires NameOk(name) && 1 <= part <= Parts(|name|) && Carries(e, name, part) && e.order % 32 == part && Filled(was, name, part)
    ensures Filled(Extracted(was, e), name, part - 1)
  {
    PartsBound(|name|);
    PartStops(e, name, part);
    var offset, n, now := (part - 1) * PER_ENTRY, Has(name, part), Extracted(was, e);
    forall j | 0 <= j < BUFFER && (offset <= j || |name| <= j) ensures ByteOk(now[j], name, j) {
      assert now[j] == PutAt(was[j], e, n, offset, j);
      if offset <= j < offset + n { assert e.chars[j - offset] == CharAt(name, j); } else { assert ByteOk(was[j], name, j); }
    }
  }

  lemma WipedFills(name: Bytes)
    requires NameOk(name)
    ensures Filled(Wiped(), name, Parts(|name|))
  {
    PartsBound(|name|);
  }

  lemma FilledText(buffer: Bytes, name: Bytes)
    requires NameOk(name) && Filled(buffer, name, 0)
    ensures Text(buffer) == name
  {
    forall j | 0 <= j <= |name| ensures buffer[j] == if j < |name| then name[j] else 0 { assert ByteOk(buffer[j], name, j); }
    TextIs(buffer, name);
  }

  // ---- Short names ---------------------------------------------------------------------------

  function Upper(c: int): int { if 97 <= c <= 122 then c - 32 else c }

  predicate Lower(c: int) { 97 <= c <= 122 }

  /** The last dot of a name, or its length. */
  function LastDot(name: Bytes): (d: int)
    ensures 0 <= d <= |name| && (d < |name| ==> name[d] == DOT) && forall i :: d < i < |name| ==> name[i] != DOT
    ensures d == |name| ==> DOT !in name
  {
    if name == [] then 0
    else if name[|name| - 1] == DOT then |name| - 1
    else
      var d := LastDot(name[..|name| - 1]);
      if d == |name| - 1 then |name| else d
  }

  function FirstDot(name: Bytes): (d: int)
    ensures 0 <= d <= |name| && (d < |name| ==> name[d] == DOT) && forall i :: 0 <= i < d ==> name[i] != DOT
  {
    if name == [] || name[0] == DOT then 0
    else
      var d := FirstDot(name[1..]);
      assert forall i :: 0 < i < |name| ==> name[i] == name[1..][i - 1];
      d + 1
  }

  function Least(a: int, b: int): int { if a < b then a else b }

  /** Character k of the eleven: eight of the part before the last dot, three of the part behind it. */
  function DosChar(name: Bytes, k: int): int
    requires 0 <= k < 11
  {
    var d := LastDot(name);
    if k < 8 then (if k < Least(d, 8) then Upper(name[k]) else SPACE)
    else if d + 1 + (k - 8) < |name| then Upper(name[d + 1 + (k - 8)]) else SPACE
  }

  predicate IsDos(short: Bytes, name: Bytes) { |short| == 11 && forall k :: 0 <= k < 11 ==> short[k] == DosChar(name, k) }

  /** The eleven characters: the first eight before the last dot and the first three behind it, as capitals, and spaces. */
  lemma DosCharIs(name: Bytes, k: int)
    requires 0 <= k < 11
    ensures !(97 <= DosChar(name, k) <= 122)
    ensures var d := LastDot(name);
            var i := if k < 8 then k else d + 1 + (k - 8);
            DosChar(name, k) == if i >= (if k < 8 then d else |name|) then 32 else if 97 <= name[i] <= 122 then name[i] - 32 else name[i]
  {
  }

  method ToDos(name: Bytes) returns (short: Bytes)
    ensures IsDos(short, name)
  {
    short := seq(11, _ => SPACE);
    var dot, i := |name|, |name|;
    while i > 0
      invariant 0 <= i <= |name| && dot == |name| && forall j :: i <= j < |name| ==> name[j] != DOT
    {
      if name[i - 1] == DOT {
        dot := i - 1;
        break;
      }
      i := i - 1;
    }
    assert dot == LastDot(name);
    for k := 0 to Least(dot, 8)
      invariant |short| == 11 && forall j :: 0 <= j < 11 ==> short[j] == if j < k then DosChar(name, j) else SPACE
    {
      short := short[k := Upper(name[k])];
    }
    if dot < |name| && dot + 1 < |name| {
      for k := 0 to Least(|name| - dot - 1, 3)
        invariant |short| == 11 && forall j :: 0 <= j < 11 ==> short[j] == if j < 8 + k then DosChar(name, j) else SPACE
      {
        short := short[8 + k := Upper(name[dot + 1 + k])];
      }
    }
  }

  /** What stands before the first space. */
  function Word(s: Bytes): Bytes { if s == [] || s[0] == SPACE then [] else [s[0]] + Word(s[1..]) }

  /** The name a short entry stands for. */
  function FromDos(short: Bytes): Bytes
    requires |short| == 11
  {
    Word(short[..8]) + if short[8] != SPACE then [DOT] + Word(short[8..]) else []
  }

  predicate AnyLower(name: Bytes) { exists i :: 0 <= i < |name| && Lower(name[i]) }

  /** A name that does not fit a short entry as it is written. */
  predicate NeedsLong(name: Bytes) {
    AnyLower(name) || (if FirstDot(name) == |name| then |name| > 8 else FirstDot(name) > 8 || |name| - FirstDot(name) - 1 > 3)
  }

  /** A long entry is needed for a small letter, more than eight characters before the first dot or more than three behind. */
  method TestLong(name: Bytes) returns (long: bool)
    ensures long == NeedsLong(name)
    ensures var d := FirstDot(name);
            long <==> (exists i :: 0 <= i < |name| && 97 <= name[i] <= 122) || d > 8 || |name| - d - 1 > 3
  {
    long := false;
    var dot, i := |name|, 0;
    while i < |name|
      invariant 0 <= i <= |name| && dot == |name| && (forall j :: 0 <= j < i ==> name[j] != DOT)
      invariant long == exists j :: 0 <= j < i && Lower(name[j])
    {
      if name[i] == DOT {
        dot := i;
        break;
      }
      if 97 <= name[i] <= 122 { long := true; }
      i := i + 1;
    }
    assert dot == FirstDot(name);
    if !long { long := if dot == |name| then |name| > 8 else dot > 8 || |name| - dot - 1 > 3; }
    if !long && dot < |name| {
      i := dot + 1;
      while i < |name|
        invariant dot < i <= |name| && !long && forall j :: 0 <= j < i ==> !Lower(name[j])
      {
        if 97 <= name[i] <= 122 { return true; }
        i := i + 1;
      }
    }
  }

  predicate NoSpace(s: Bytes) { forall i :: 0 <= i < |s| ==> s[i] != SPACE }

  lemma {:induction false} WordOf(s: Bytes, n: int)
    requires 0 <= n <= |s| && forall i :: n <= i < |s| ==> s[i] == SPACE
    ensures |Word(s)| <= n && (|Word(s)| == n ==> Word(s) == s[..n]) && (|Word(s)| == n <==> NoSpace(s[..n]))
    decreases |s|
  {
    if n > 0 {
      assert s[..n] == [s[0]] + s[1..][..n - 1];
      WordOf(s[1..], n - 1);
    }
  }

  lemma Joined(name: Bytes, d: int)
    requires 0 <= d < |name| && name[d] == DOT
    ensures name == name[..d] + [DOT] + name[d + 1..]
    ensures NoSpace(name) <==> NoSpace(name[..d]) && NoSpace(name[d + 1..])
  {
    assert forall i :: 0 <= i < d ==> name[i] == name[..d][i];
    assert forall i :: d < i < |name| ==> name[i] == name[d + 1..][i - d - 1];
  }

  lemma NoneLower(name: Bytes, i: int)
    requires !AnyLower(name) && 0 <= i < |name|
    ensures Upper(name[i]) == name[i]
  {
    assert !Lower(name[i]);
  }

  lemma LeftHalf(name: Bytes, short: Bytes, m: int)
    requires IsDos(short, name) && !AnyLower(name) && m == Least(LastDot(name), 8)
    ensures short[..8][..m] == name[..m] && forall i :: m <= i < 8 ==> short[..8][i] == SPACE
  {
    forall i | 0 <= i < m ensures short[i] == name[i] {
      assert short[i] == DosChar(name, i);
      NoneLower(name, i);
    }
    forall i | m <= i < 8 ensures short[i] == SPACE { assert short[i] == DosChar(name, i); }
  }

  lemma DosRight(name: Bytes, d: int, i: int)
    requires !AnyLower(name) && d == LastDot(name) < |name| && 0 <= i < 3
    ensures DosChar(name, 8 + i) == if d + 1 + i < |name| then name[d + 1 + i] else SPACE
  {
    if d + 1 + i < |name| { NoneLower(name, d + 1 + i); }
  }

  lemma RightHalf(name: Bytes, short: Bytes, d: int)
    requires IsDos(short, name) && !AnyLower(name) && d == LastDot(name) < |name| && |name| - d - 1 <= 3
    ensures short[8..][..|name| - d - 1] == name[d + 1..] && forall i :: |name| - d - 1 <= i < 3 ==> short[8..][i] == SPACE
  {
    var n, e, x := |name| - d - 1, short[8..], name[d + 1..];
    forall i | 0 <= i < 3 ensures e[i] == if i < n then x[i] else SPACE {
      assert short[8 + i] == DosChar(name, 8 + i);
      DosRight(name, d, i);
    }
  }

  lemma WithoutDot(name: Bytes, short: Bytes)
    requires IsDos(short, name) && !AnyLower(name) && LastDot(name) == |name| <= 8
    ensures FromDos(short) == name <==> NoSpace(name)
  {
    var d := |name|;
    LeftHalf(name, short, d);
    WordOf(short[..8], d);
    assert name[..d] == name;
    assert short[8] == DosChar(name, 8) == SPACE;
  }

  lemma WithDot(name: Bytes, short: Bytes, d: int)
    requires IsDos(short, name) && !AnyLower(name) && d == LastDot(name) < |name| && |name| - d - 1 <= 3
    ensures FromDos(short) == name <==> NoSpace(name) && d <= 8 && d + 1 < |name|
  {
    LeftHalf(name, short, Least(d, 8));
    WordOf(short[..8], Least(d, 8));
    RightHalf(name, short, d);
    WordOf(short[8..], |name| - d - 1);
    Joined(name, d);
    assert short[8] == DosChar(name, 8);
    if d + 1 < |name| { NoneLower(name, d + 1); }
    DotIff(name, d, short[8] != SPACE, Word(short[..8]), Word(short[8..]));
  }

  /** Names that a short entry alone can stand for. */
  predicate FitsShort(name: Bytes) {
    NoSpace(name) && (LastDot(name) == |name| || (LastDot(name) <= 8 && LastDot(name) + 1 < |name|))
  }

  /** A name that needs no long entry is spelled by its short one exactly when it has no space, its last dot is within
      the first nine characters and something follows that dot. */
  lemma ShortIff(name: Bytes, short: Bytes)
    requires name != [] && IsDos(short, name) && !NeedsLong(name)
    ensures FromDos(short) == name <==> FitsShort(name)
  {
    FirstBeforeLast(name);
    if LastDot(name) == |name| { WithoutDot(name, short); } else { WithDot(name, short, LastDot(name)); }
  }

  /** Two words and a dot make up a name exactly when neither was cut. */
  lemma DotIff(name: Bytes, d: int, some: bool, w: Bytes, x: Bytes)
    requires 0 <= d < |name| && name[d] == DOT && name == name[..d] + [DOT] + name[d + 1..]
    requires var m := Least(d, 8);
      |w| <= m && (|w| == m ==> w == name[..m]) && (|w| == m <==> NoSpace(name[..m]))
    requires var n := |name| - d - 1;
      |x| <= n && (|x| == n ==> x == name[d + 1..]) && (|x| == n <==> NoSpace(name[d + 1..]))
      && (some <==> n > 0 && name[d + 1] != SPACE)
    ensures (w + (if some then [DOT] + x else []) == name) <==> NoSpace(name[..d]) && NoSpace(name[d + 1..]) && d <= 8 && d + 1 < |name|
  {
    var n := |name| - d - 1;
    var r := w + if some then [DOT] + x else [];
    if r == name {
      assert |w| + 1 + |x| == d + 1 + n;
    }
    if NoSpace(name[..d]) && NoSpace(name[d + 1..]) && d <= 8 && d + 1 < |name| {
      assert name[d + 1..][0] != SPACE;
      assert r == name[..d] + ([DOT] + name[d + 1..]);
    }
  }

  lemma FirstBeforeLast(name: Bytes)
    ensures FirstDot(name) <= LastDot(name) && (FirstDot(name) == |name| <==> LastDot(name) == |name|)
  {
  }

  /** The name of a directory entry: the long name collected before it if there is one, else its own. */
  function Resolved(short: Bytes, buffer: Bytes, hasLong: bool): Bytes
    requires |short| == 11
  {
    if hasLong && Text(buffer) != [] then Text(buffer) else FromDos(short)
  }

  method ResolveName(short: Bytes, buffer: array<int>, hasLong: bool) returns (name: Bytes)
    requires |short| == 11 && buffer.Length == BUFFER
    ensures name == Resolved(short, buffer[..], hasLong)
  {
    if hasLong && buffer[0] != 0 {
      name := Text(buffer[..]);
    } else {
      name := ShortName(short);
    }
  }

  method ShortName(short: Bytes) returns (name: Bytes)
    requires |short| == 11
    ensures name == FromDos(short)
  {
    name := TakeWord(short, 0, 8);
    assert short[0..8] == short[..8];
    if short[8] != SPACE {
      var e := TakeWord(short, 8, 3);
      assert short[8..11] == short[8..];
      name := name + ([DOT] + e);
    }
  }

  method TakeWord(short: Bytes, start: int, n: int) returns (w: Bytes)
    requires 0 <= start && 0 <= n && start + n <= |short|
    ensures w == Word(short[start..start + n])
  {
    w := [];
    var k := 0;
    ghost var s := short[start..start + n];
    assert s[0..] == s;
    while k < n && short[start + k] != SPACE
      invariant 0 <= k <= n && Word(s) == w + Word(s[k..])
    {
      assert s[k] == short[start + k] && s[k..][1..] == s[k + 1..];
      w := w + [short[start + k]];
      k := k + 1;
    }
    assert k < n ==> s[k..][0] == SPACE;
    assert w + [] == w;
  }

  // ---- Directories ---------------------------------------------------------------------------

  /** A record of a directory: part of a long name, or a short entry, which may be a volume label. */
  datatype Record = Long(entry: Entry) | Short(chars: Bytes, volume: bool)

  /** Where a scan of a directory stands: the names seen, the long name collected, and whether the end was met. */
  datatype Scan = Scan(names: seq<Bytes>, hasLong: bool, buffer: Bytes, ended: bool)

  const DELETED := 0xE5

  predicate RecordOk(r: Record) { if r.Long? then r.entry.order == DELETED || InBuffer(r.entry) else |r.chars| == 11 }

  predicate Sound(records: seq<Record>) { forall i :: 0 <= i < |records| ==> RecordOk(records[i]) }

  function First(r: Record): int { if r.Long? then r.entry.order else if r.chars == [] then 0 else r.chars[0] }

  /** Records that are passed over by their first byte; a listing passes over the dot entries too. */
  predicate Skips(r: Record, listing: bool) { First(r) == DELETED || (listing && First(r) == DOT) }

  predicate Marked(e: Entry) { e.order / LAST_FLAG % 2 == 1 }

  function Step(s: Scan, r: Record, listing: bool): Scan
    requires RecordOk(r)
  {
    if s.ended then s
    else if First(r) == 0 then s.(ended := true)
    else if Skips(r, listing) then s.(hasLong := false)
    else if r.Long? then s.(hasLong := true, buffer := Extracted(if Marked(r.entry) then Wiped() else s.buffer, r.entry))
    else if r.volume then s.(hasLong := false)
    else s.(names := s.names + [Resolved(r.chars, s.buffer, s.hasLong)], hasLong := false)
  }

  function Run(s: Scan, records: seq<Record>, listing: bool): Scan
    requires Sound(records)
  {
    if records == [] then s else Step(Run(s, records[..|records| - 1], listing), records[|records| - 1], listing)
  }

  method Wipe(buffer: array<int>)
    requires buffer.Length == BUFFER
    modifies buffer
    ensures buffer[..] == Wiped()
  {
    for k := 0 to BUFFER
      invariant forall j :: 0 <= j < k ==> buffer[j] == 0
    {
      buffer[k] := 0;
    }
  }

  /** The records of one cluster, up to the first one never used. */
  method ScanCluster(records: seq<Record>, listing: bool, hasLong: bool, buffer: array<int>) returns (names: seq<Bytes>, long: bool, ended: bool)
    requires Sound(records) && buffer.Length == BUFFER
    modifies buffer
    ensures Scan(names, long, buffer[..], ended) == Run(Scan([], hasLong, old(buffer[..]), false), records, listing)
  {
    names, long, ended := [], hasLong, false;
    var e := 0;
    ghost var start := Scan([], hasLong, buffer[..], false);
    while e < |records|
      invariant 0 <= e <= |records| && !ended
      invariant Scan(names, long, buffer[..], ended) == Run(start, records[..e], listing)
    {
      var r := records[e];
      assert records[..e + 1][..e] == records[..e];
      if First(r) == 0 {
        ended := true;
        RunEnded(start, records, e + 1, listing);
        return;
      }
      if Skips(r, listing) {
        long := false;
      } else if r.Long? {
        if Marked(r.entry) { Wipe(buffer); }
        ExtractChars(r.entry, buffer);
        long := true;
      } else {
        if !r.volume {
          var name := ResolveName(r.chars, buffer, long);
          names := names + [name];
        }
        long := false;
      }
      e := e + 1;
    }
    assert records[..e] == records;
  }

  lemma {:induction false} RunEnded(s: Scan, records: seq<Record>, i: int, listing: bool)
    requires Sound(records) && 0 <= i <= |records| && Run(s, records[..i], listing).ended
    ensures Run(s, records, listing) == Run(s, records[..i], listing)
    decreases |records| - i
  {
    if i == |records| {
      assert records[..i] == records;
    } else {
      assert records[..i + 1][..i] == records[..i];
      RunEnded(s, records, i + 1, listing);
    }
  }

  lemma {:induction false} RunSplit(s: Scan, a: seq<Record>, b: seq<Record>, listing: bool)
    requires Sound(a) && Sound(b)
    ensures Sound(a + b) && Run(s, a + b, listing) == Run(Run(s, a, listing), b, listing)
    decreases |b|
  {
    if b == [] {
      assert a + b == a;
    } else {
      var n := |b| - 1;
      RunSplit(s, a, b[..n], listing);
      assert (a + b)[..|a + b| - 1] == a + b[..n];
    }
  }

  /** What occupies a stretch of a directory: a file under a long name, or one record of its own. */
  datatype Slot = Named(name: Bytes, short: Bytes, parts: seq<Record>) | Alone(record: Record)

  function Records(slot: Slot): seq<Record> { if slot.Named? then slot.parts + [Short(slot.short, false)] else [slot.record] }

  /** A record of its own is a short entry, or one that was deleted. */
  ghost predicate SlotOk(slot: Slot) {
    match slot
    case Named(name, short, parts) => NameOk(name) && |short| == 11 && short[0] != 0 && PartsOf(parts, name)
    case Alone(r) => RecordOk(r) && First(r) != 0 && (r.Short? || First(r) == DELETED)
  }

  ghost predicate PartsOf(rs: seq<Record>, name: Bytes) {
    |rs| == Parts(|name|) && forall i {:trigger rs[i]} :: 0 <= i < |rs| ==> PartRecord(rs[i], name, |rs| - i)
  }

  /** The record of one part of a name. */
  ghost predicate PartRecord(r: Record, name: Bytes, part: int) {
    r.Long? && Carries(r.entry, name, part) && r.entry.order == part + if part == Parts(|name|) then LAST_FLAG else 0
  }

  /** The names a scan finds in a slot: at most one. */
  function Shown(slot: Slot, listing: bool): seq<Bytes> {
    match slot
    case Named(name, short, _) => if Skips(Short(short, false), listing) then [] else [name]
    case Alone(r) => if Skips(r, listing) || r.Long? || r.volume || |r.chars| != 11 then [] else [FromDos(r.chars)]
  }

  /** One part of a long name is collected. */
  lemma PartStep(s: Scan, r: Record, name: Bytes, part: int, listing: bool)
    requires NameOk(name) && 1 <= part <= Parts(|name|) && PartRecord(r, name, part) && !s.ended
    requires part < Parts(|name|) ==> Filled(s.buffer, name, part)
    ensures RecordOk(r)
    ensures var t := Step(s, r, listing); t == Scan(s.names, true, t.buffer, false) && Filled(t.buffer, name, part - 1)
  {
    PartsBound(|name|);
    PartStops(r.entry, name, part);
    WipedFills(name);
    FilledMore(if part == Parts(|name|) then Wiped() else s.buffer, r.entry, name, part);
  }

  /** The first parts of a long name are collected. */
  lemma {:induction false} PartsRun(s: Scan, rs: seq<Record>, name: Bytes, i: int, listing: bool)
    requires NameOk(name) && PartsOf(rs, name) && 0 <= i <= |rs| && !s.ended
    ensures Sound(rs[..i])
    ensures i > 0 ==>
              var t := Run(s, rs[..i], listing);
              t == Scan(s.names, true, t.buffer, false) && Filled(t.buffer, name, |rs| - i)
    decreases i
  {
    if i > 0 {
      PartsRun(s, rs, name, i - 1, listing);
      assert rs[..i][..i - 1] == rs[..i - 1];
      PartStep(Run(s, rs[..i - 1], listing), rs[i - 1], name, |rs| - i + 1, listing);
    }
  }

  /** A scan went on from one state to another, found some names and is between two slots. */
  ghost predicate Found(s: Scan, t: Scan, names: seq<Bytes>) { t.names == s.names + names && !t.hasLong && !t.ended }

  /** A scan of the records of a slot finds the names of that slot, whatever the buffer held. */
  lemma SlotRun(s: Scan, slot: Slot, listing: bool)
    requires SlotOk(slot) && !s.ended && !s.hasLong
    ensures Sound(Records(slot)) && Found(s, Run(s, Records(slot), listing), Shown(slot, listing))
  {
    match slot
    case Named(name, short, parts) =>
      PartsBound(|name|);
      PartsRun(s, parts, name, |parts|, listing);
      assert parts[..|parts|] == parts;
      var t := Run(s, parts, listing);
      FilledText(t.buffer, name);
      RunSplit(s, parts, [Short(short, false)], listing);
      RunOne(t, Short(short, false), listing);
    case Alone(r) =>
      RunOne(s, r, listing);
  }

  lemma RunOne(s: Scan, r: Record, listing: bool)
    requires RecordOk(r)
    ensures Run(s, [r], listing) == Step(s, r, listing)
  {
    assert [r][..0] == [];
  }

  ghost predicate SlotsOk(slots: seq<Slot>) { forall i :: 0 <= i < |slots| ==> SlotOk(slots[i]) }

  function AllRecords(slots: seq<Slot>): seq<Record> {
    if slots == [] then [] else AllRecords(slots[..|slots| - 1]) + Records(slots[|slots| - 1])
  }

  function AllShown(slots: seq<Slot>, listing: bool): seq<Bytes> {
    if slots == [] then [] else AllShown(slots[..|slots| - 1], listing) + Shown(slots[|slots| - 1], listing)
  }

  lemma {:induction false} SlotsRun(s: Scan, slots: seq<Slot>, listing: bool)
    requires SlotsOk(slots) && !s.ended && !s.hasLong
    ensures Sound(AllRecords(slots)) && Found(s, Run(s, AllRecords(slots), listing), AllShown(slots, listing))
    decreases |slots|
  {
    if slots != [] {
      var init, last := slots[..|slots| - 1], slots[|slots| - 1];
      SlotsRun(s, init, listing);
      SlotRun(Run(s, AllRecords(init), listing), last, listing);
      RunSplit(s, AllRecords(init), Records(last), listing);
      Assoc(s.names, AllShown(init, listing), Shown(last, listing));
    }
  }

  /** One cluster: slots, then records from one never used on. No slot goes over the end of a cluster. */
  datatype Cluster = Cluster(slots: seq<Slot>, rest: seq<Record>)

  ghost predicate ClusterOk(c: Cluster) { SlotsOk(c.slots) && Sound(c.rest) && (c.rest != [] ==> First(c.rest[0]) == 0) }

  lemma ClusterRun(s: Scan, c: Cluster, listing: bool)
    requires ClusterOk(c) && !s.ended && !s.hasLong
    ensures Sound(AllRecords(c.slots) + c.rest)
    ensures var t := Run(s, AllRecords(c.slots) + c.rest, listing);
            t.names == s.names + AllShown(c.slots, listing) && !t.hasLong && t.ended == (c.rest != [])
  {
    SlotsRun(s, c.slots, listing);
    var t := Run(s, AllRecords(c.slots), listing);
    RunSplit(s, AllRecords(c.slots), c.rest, listing);
    if c.rest != [] { RestRun(t, c.rest, listing); }
  }

  lemma RestRun(s: Scan, rest: seq<Record>, listing: bool)
    requires Sound(rest) && rest != [] && First(rest[0]) == 0 && !s.ended
    ensures Run(s, rest, listing) == s.(ended := true)
  {
    assert rest[..1] == [rest[0]];
    RunOne(s, rest[0], listing);
    RunEnded(s, rest, 1, listing);
  }

  ghost predicate DirectoryOk(dir: seq<Cluster>) { forall i :: 0 <= i < |dir| ==> ClusterOk(dir[i]) }

  /** The names in a directory. A listing ends at the first record never used, a search goes on in the next cluster. */
  function Names(dir: seq<Cluster>, listing: bool): seq<Bytes> {
    if dir == [] then []
    else AllShown(dir[0].slots, listing) + if listing && dir[0].rest != [] then [] else Names(dir[1..], listing)
  }

  /** One cluster of a scan, entered between two slots. */
  method ScanNext(records: seq<Record>, listing: bool, buffer: array<int>, ghost c: Cluster) returns (names: seq<Bytes>, long: bool, ended: bool)
    requires ClusterOk(c) && buffer.Length == BUFFER && records == AllRecords(c.slots) + c.rest
    modifies buffer
    ensures names == AllShown(c.slots, listing) && !long && ended == (c.rest != [])
  {
    ClusterRun(Scan([], false, buffer[..], false), c, listing);
    names, long, ended := ScanCluster(records, listing, false, buffer);
    assert names == [] + AllShown(c.slots, listing);
  }

  /** What a scan still finds from some cluster on. */
  function Left(dir: seq<Cluster>, c: int, listing: bool, ended: bool): seq<Bytes>
    requires 0 <= c <= |dir|
  {
    if listing && ended then [] else Names(dir[c..], listing)
  }

  lemma LeftStep(dir: seq<Cluster>, c: int, listing: bool, before: seq<Bytes>)
    requires 0 <= c < |dir|
    ensures before + Names(dir[c..], listing) == (before + AllShown(dir[c].slots, listing)) + Left(dir, c + 1, listing, dir[c].rest != [])
  {
    assert dir[c..][1..] == dir[c + 1..];
    Assoc(before, AllShown(dir[c].slots, listing), Left(dir, c + 1, listing, dir[c].rest != []));
  }

  lemma LeftEnds(dir: seq<Cluster>, c: int, listing: bool, ended: bool, names: seq<Bytes>)
    requires 0 <= c <= |dir| && (c == |dir| || (listing && ended))
    ensures names + Left(dir, c, listing, ended) == names
  {
  }

  /** Scanning a directory finds exactly the names of its slots, in order. */
  method ScanDirectory(clusters: seq<seq<Record>>, listing: bool, buffer: array<int>, ghost dir: seq<Cluster>) returns (names: seq<Bytes>)
    requires DirectoryOk(dir) && |dir| == |clusters| && buffer.Length == BUFFER
    requires forall i :: 0 <= i < |dir| ==> clusters[i] == AllRecords(dir[i].slots) + dir[i].rest
    modifies buffer
    ensures names == Names(dir, listing)
  {
    names := [];
    Wipe(buffer);
    var c, long, ended := 0, false, false;
    ghost var all := Names(dir, listing);
    assert dir[0..] == dir && [] + all == all;
    while c < |clusters| && !(listing && ended)
      invariant 0 <= c <= |clusters| && !long && all == names + Left(dir, c, listing, ended)
    {
      LeftStep(dir, c, listing, names);
      var more;
      more, long, ended := ScanNext(clusters[c], listing, buffer, dir[c]);
      names := names + more;
      c := c + 1;
    }
    LeftEnds(dir, c, listing, ended, names);
  }

  // ---- Round trip ----------------------------------------------------------------------------

  /** What creating a file puts into a directory: its short entry, behind the parts of its name if that is needed. */
  method CreateEntry(name: Bytes) returns (records: seq<Record>, ghost slot: Slot)
    requires NameOk(name)
    ensures SlotOk(slot) && records == Records(slot) && Written(slot, name)
  {
    var short := ToDos(name);
    assert short[0] == DosChar(name, 0);
    var long := TestLong(name);
    records := [];
    if long {
      var entries := WriteEntries(name);
      for i := 0 to |entries|
        invariant |records| == i && forall j :: 0 <= j < i ==> records[j] == Long(entries[j])
      {
        records := records + [Long(entries[i])];
      }
      slot := Named(name, short, records);
    } else {
      slot := Alone(Short(short, false));
    }
    records := records + [Short(short, false)];
  }

  /** The slot of a file created under a name. */
  ghost predicate Written(slot: Slot, name: Bytes) {
    if NeedsLong(name) then slot.Named? && slot.name == name && IsDos(slot.short, name)
    else slot.Alone? && slot.record.Short? && !slot.record.volume && IsDos(slot.record.chars, name)
  }

  /** The first character of the short entry is the mark of a deleted one, or a dot. */
  predicate Hidden(name: Bytes, listing: bool)
    requires name != []
  {
    name[0] == DELETED || (listing && name[0] == DOT && LastDot(name) > 0)
  }

  lemma HiddenIff(name: Bytes, short: Bytes, listing: bool)
    requires NameOk(name) && IsDos(short, name)
    ensures Skips(Short(short, false), listing) <==> Hidden(name, listing)
  {
    assert short[0] == DosChar(name, 0);
  }

  /** A file comes back under its name if and only if its first character does not hide it and the name is long or
      fits a short entry. A hidden file is not seen at all. */
  lemma ComesBackIff(slot: Slot, name: Bytes, listing: bool)
    requires NameOk(name) && SlotOk(slot) && Written(slot, name)
    ensures Shown(slot, listing) == [name] <==> !Hidden(name, listing) && (NeedsLong(name) || FitsShort(name))
    ensures Shown(slot, listing) == [] <==> Hidden(name, listing)
  {
    var short := if slot.Named? then slot.short else slot.record.chars;
    HiddenIff(name, short, listing);
    if !NeedsLong(name) { ShortIff(name, short); }
  }

  const LONG_HIDDEN: Bytes := [0xE5, 0x9B, 0xBD, 46, 116, 120, 116]
  const SHORT_HIDDEN: Bytes := [0xE5, 65]

  /** Two names that are lost, one that gets a long entry and one that fits a short one. */
  lemma HiddenNames(slot: Slot, name: Bytes, listing: bool)
    requires name == LONG_HIDDEN || name == SHORT_HIDDEN
    requires SlotOk(slot) && Written(slot, name)
    ensures NameOk(name) && (NeedsLong(name) || FitsShort(name)) && Shown(slot, listing) == []
  {
    assert Lower(LONG_HIDDEN[4]);
    ComesBackIff(slot, name, listing);
  }

  lemma {:induction false} RecordsConcat(a: seq<Slot>, b: seq<Slot>)
    ensures AllRecords(a + b) == AllRecords(a) + AllRecords(b)
    decreases |b|
  {
    if b == [] {
      assert a + b == a;
    } else {
      var n := |b| - 1;
      assert (a + b)[..|a + b| - 1] == a + b[..n];
      RecordsConcat(a, b[..n]);
      Assoc(AllRecords(a), AllRecords(b[..n]), Records(b[n]));
    }
  }

  lemma {:induction false} ShownConcat(a: seq<Slot>, b: seq<Slot>, listing: bool)
    ensures AllShown(a + b, listing) == AllShown(a, listing) + AllShown(b, listing)
    decreases |b|
  {
    if b == [] {
      assert a + b == a;
    } else {
      var n := |b| - 1;
      assert (a + b)[..|a + b| - 1] == a + b[..n];
      ShownConcat(a, b[..n], listing);
      Assoc(AllShown(a, listing), AllShown(b[..n], listing), Shown(b[n], listing));
    }
  }

  lemma OneSlot(slot: Slot, listing: bool)
    ensures AllRecords([slot]) == Records(slot) && AllShown([slot], listing) == Shown(slot, listing)
  {
    assert [slot][..0] == [];
  }

  lemma RecordsBetween(before: seq<Slot>, slot: Slot, behind: seq<Slot>)
    ensures AllRecords(before + [slot] + behind) == AllRecords(before) + Records(slot) + AllRecords(behind)
  {
    OneSlot(slot, true);
    RecordsConcat(before, [slot]);
    RecordsConcat(before + [slot], behind);
  }

  lemma ShownBetween(before: seq<Slot>, slot: Slot, behind: seq<Slot>, listing: bool)
    ensures AllShown(before + [slot] + behind, listing) == AllShown(before, listing) + Shown(slot, listing) + AllShown(behind, listing)
  {
    OneSlot(slot, listing);
    ShownConcat(before, [slot], listing);
    ShownConcat(before + [slot], behind, listing);
  }

  /** Between the names before and those behind there is the file's name, nothing when it is hidden, or another name
      when it neither gets a long entry nor fits a short one. */
  ghost predicate Among(names: seq<Bytes>, before: seq<Bytes>, behind: seq<Bytes>, name: Bytes, listing: bool)
    requires name != []
  {
    if Hidden(name, listing) then names == before + behind
    else exists found :: names == before + [found] + behind && (found == name <==> NeedsLong(name) || FitsShort(name))
  }

  lemma AmongNames(before: seq<Bytes>, found: seq<Bytes>, behind: seq<Bytes>, name: Bytes, listing: bool)
    requires name != [] && |found| <= 1 && (found == [] <==> Hidden(name, listing))
    requires found == [name] <==> !Hidden(name, listing) && (NeedsLong(name) || FitsShort(name))
    ensures Among(before + found + behind, before, behind, name, listing)
  {
    if found == [] {
      assert before + [] == before;
    } else {
      assert found == [found[0]];
    }
  }

  /** What a scan finds of a file created among others. */
  lemma CreatedAmong(before: seq<Slot>, slot: Slot, behind: seq<Slot>, name: Bytes, listing: bool)
    requires NameOk(name) && SlotOk(slot) && Written(slot, name)
    ensures Among(AllShown(before + [slot] + behind, listing), AllShown(before, listing), AllShown(behind, listing), name, listing)
  {
    ShownBetween(before, slot, behind, listing);
    ComesBackIff(slot, name, listing);
    AmongNames(AllShown(before, listing), Shown(slot, listing), AllShown(behind, listing), name, listing);
  }

  /** A file is created among others and the directory is scanned. */
  method WriteAndRead(name: Bytes, before: seq<Record>, behind: seq<Record>, listing: bool, buffer: array<int>,
                      ghost slots0: seq<Slot>, ghost slots1: seq<Slot>) returns (names: seq<Bytes>)
    requires NameOk(name) && buffer.Length == BUFFER && SlotsOk(slots0) && SlotsOk(slots1)
    requires before == AllRecords(slots0) && behind == AllRecords(slots1)
    modifies buffer
    ensures Among(names, AllShown(slots0, listing), AllShown(slots1, listing), name, listing)
  {
    var records;
    ghost var slot;
    records, slot := CreateEntry(name);
    RecordsBetween(slots0, slot, slots1);
    CreatedAmong(slots0, slot, slots1, name, listing);
    var long, ended;
    var all := before + records + behind;
    assert all == all + [];
    names, long, ended := ScanNext(all, listing, buffer, Cluster(slots0 + [slot] + slots1, []));
  }
}
