/**
 The LZ4 decoder of fs/lz4.c. The grammar is the one of the LZ4 Block Format Description, heading "Compressed
 block format": a block is a list of sequences of literals and a match, perhaps followed by literals alone.

 The format is decoded twice: `Decode` and `Blocks` with numbers of any size, as the format means it, and `Decode32` and
 `Blocks32` with the sums of 32 bits that the code has, which wrap around. The code is proved to be the latter.
 */
module Lz4 {
  import opened Basics

  type Byte = x: int | 0 <= x < 256

  /** Literals, then a copy of `length` bytes from `offset` bytes back. */
  datatype Sequence = Sequence(literals: seq<Byte>, offset: int, length: int)

  /** `Tail` is a closing token with its literals; `low` is the half of that token nobody reads. */
  datatype Block = End | Tail(literals: seq<Byte>, low: int) | Then(first: Sequence, rest: Block)

  datatype Result = Fail(code: int) | Done(out: seq<Byte>)

  const MIN_MATCH := 4

  // ---- The grammar ---------------------------------------------------------------------------

  /** The bytes that carry the part of a length above 15. */
  function Run(n: int): seq<Byte>
    requires n >= 0
  {
    if n < 255 then [n] else [255] + Run(n - 255)
  }

  function Extra(n: int): seq<Byte>
    requires n >= 0
  {
    if n < 15 then [] else Run(n - 15)
  }

  function Nibble(n: int): (r: int)
    requires n >= 0
    ensures 0 <= r < 16
  {
    if n < 15 then n else 15
  }

  predicate WellFormed(q: Sequence) { 1 <= q.offset < 0x10000 && q.length >= MIN_MATCH }

  /** The token of a sequence or tail. */
  function Token(literals: int, low: int): Byte
    requires literals >= 0 && 0 <= low < 16
  {
    Nibble(literals) * 16 + low
  }

  /** A token, its literals and what follows. */
  function Literals(token: Byte, l: seq<Byte>, t: seq<Byte>): seq<Byte> { [token] + Extra(|l|) + l + t }

  /** The match of a sequence and what follows. */
  function Match(offset: int, length: int, t: seq<Byte>): seq<Byte>
    requires 1 <= offset < 0x10000 && length >= MIN_MATCH
  {
    [offset % 256, offset / 256] + Extra(length - MIN_MATCH) + t
  }

  function EncodeSequence(q: Sequence, t: seq<Byte>): seq<Byte>
    requires WellFormed(q)
  {
    Literals(Token(|q.literals|, Nibble(q.length - MIN_MATCH)), q.literals, Match(q.offset, q.length, t))
  }

  predicate WellFormedBlock(b: Block) {
    match b
    case End => true
    case Tail(_, low) => 0 <= low < 16
    case Then(q, t) => WellFormed(q) && WellFormedBlock(t)
  }

  function EncodeBlock(b: Block): seq<Byte>
    requires WellFormedBlock(b)
  {
    match b
    case End => []
    case Tail(l, low) => Literals(Token(|l|, low), l, [])
    case Then(q, t) => EncodeSequence(q, EncodeBlock(t))
  }

  /** A copy from behind, byte by byte: it may overlap what it writes. */
  function Copy(out: seq<Byte>, offset: int, n: int): (r: seq<Byte>)
    requires 1 <= offset <= |out| && n >= 0
    ensures |r| == |out| + n
    decreases n
  {
    if n == 0 then out else Copy(out + [out[|out| - offset]], offset, n - 1)
  }

  /** What a block stands for, behind what is already there; nothing if an offset reaches too far back. */
  function Expand(out: seq<Byte>, b: Block): Option<seq<Byte>>
    requires WellFormedBlock(b)
    decreases b
  {
    match b
    case End => Some(out)
    case Tail(l, _) => Some(out + l)
    case Then(q, t) =>
      var lit := out + q.literals;
      if q.offset > |lit| then None else Expand(Copy(lit, q.offset, q.length), t)
  }

  /** A copy leaves what is there, and every byte it adds is the one `offset` before it, be that one it added itself. */
  lemma {:induction false} CopyIs(out: seq<Byte>, offset: int, n: int, i: int)
    requires 1 <= offset <= |out| && n >= 0 && 0 <= i < |out| + n
    ensures var r := Copy(out, offset, n); if i < |out| then r[i] == out[i] else r[i] == r[i - offset]
    decreases n
  {
    if n > 0 {
      var next := out + [out[|out| - offset]];
      CopyIs(next, offset, n - 1, i);
      if i == |out| { CopyIs(next, offset, n - 1, i - offset); }
    }
  }

  // ---- The decoder as a function -------------------------------------------------------------

  /** Adds up a run of bytes up to the first below 255. */
  function ReadRun(s: seq<Byte>, n: int): Option<(int, seq<Byte>)> {
    if s == [] then None
    else if s[0] == 255 then ReadRun(s[1..], n + 255)
    else Some((n + s[0], s[1..]))
  }

  function ReadLength(s: seq<Byte>, n: int): Option<(int, seq<Byte>)> { if n == 15 then ReadRun(s, 15) else Some((n, s)) }

  lemma {:induction false} ReadRunShrinks(s: seq<Byte>, n: int)
    ensures var r := ReadRun(s, n); r.Some? ==> n <= r.value.0 && |r.value.1| < |s|
    decreases |s|
  {
    if s != [] && s[0] == 255 { ReadRunShrinks(s[1..], n + 255); }
  }

  function Word(lo: int, hi: int): int { lo + hi * 256 }

  function Decode(s: seq<Byte>, out: seq<Byte>, cap: int): Result
    decreases |s|, 1
  {
    if s == [] then Done(out) else DecodeToken(s, out, cap)
  }

  function DecodeToken(s: seq<Byte>, out: seq<Byte>, cap: int): Result
    requires s != []
    decreases |s|, 0
  {
    var lit := ReadLength(s[1..], s[0] / 16);
    if lit.None? then Fail(-1)
    else
      ReadRunShrinks(s[1..], 15);
      var n, s1 := lit.value.0, lit.value.1;
      if n > 0 && (|out| + n > cap || n > |s1|) then Fail(-2)
      else DecodeMatch(s1[n..], out + s1[..n], cap, s[0] % 16)
  }

  function DecodeMatch(s: seq<Byte>, out: seq<Byte>, cap: int, low: int): Result
    requires 0 <= low < 16
    decreases |s|, 1
  {
    if s == [] then Done(out) else DecodeOffset(s, out, cap, low)
  }

  function DecodeOffset(s: seq<Byte>, out: seq<Byte>, cap: int, low: int): Result
    requires 0 <= low < 16
    decreases |s|, 0
  {
    if |s| < 2 then Fail(-3)
    else
      var offset := Word(s[0], s[1]);
      if offset == 0 then Fail(-4)
      else
        var len := ReadLength(s[2..], low);
        if len.None? then Fail(-5)
        else
          ReadRunShrinks(s[2..], 15);
          var m := len.value.0 + MIN_MATCH;
          if offset > |out| || |out| + m > cap then Fail(-6)
          else Decode(len.value.1, Copy(out, offset, m), cap)
  }

  /** The six refusals of the decoder, each at the shortest input that draws it. */
  lemma Refusals(cap: int)
    requires cap >= 1
    ensures Decode([0xF0], [], cap) == Fail(-1) && Decode([0x10], [], cap) == Fail(-2) && Decode([0x10, 97, 1], [], cap) == Fail(-3)
    ensures Decode([0x10, 97, 0, 0], [], cap) == Fail(-4) && Decode([0x1F, 97, 1, 0], [], cap) == Fail(-5)
    ensures Decode([0x10, 97, 2, 0], [], cap) == Fail(-6)
  {
    AfterLetter([1], cap, 0);
    AfterLetter([0, 0], cap, 0);
    AfterLetter([1, 0], cap, 15);
    AfterLetter([2, 0], cap, 0);
  }

  lemma AfterLetter(t: seq<Byte>, cap: int, low: int)
    requires cap >= 1 && 0 <= low < 16
    ensures Decode([0x10 + low, 97] + t, [], cap) == DecodeMatch(t, [97], cap, low)
  {
    var s: seq<Byte> := [0x10 + low, 97] + t;
    var none: seq<Byte>, letter: seq<Byte> := [], [97];
    assert s == Literals(Token(1, low), letter, t);
    LiteralsRead(low, letter, t, none, cap);
    assert none + letter == letter;
  }

  // ---- Lengths -------------------------------------------------------------------------------

  lemma {:induction false} RunRead(n: int, acc: int, t: seq<Byte>)
    requires n >= 0
    ensures ReadRun(Run(n) + t, acc) == Some((acc + n, t))
    decreases n
  {
    if n < 255 {
      assert ([n] + t)[1..] == t;
    } else {
      RunRead(n - 255, acc + 255, t);
      assert (Run(n) + t)[1..] == Run(n - 255) + t;
    }
  }

  lemma {:induction false} RunWritten(s: seq<Byte>, acc: int)
    requires ReadRun(s, acc).Some?
    ensures var r := ReadRun(s, acc).value; r.0 >= acc && s == Run(r.0 - acc) + r.1
    decreases |s|
  {
    if s[0] == 255 {
      RunWritten(s[1..], acc + 255);
      var r := ReadRun(s, acc).value;
      assert s == [s[0]] + s[1..];
      assert Run(r.0 - acc) == [255] + Run(r.0 - (acc + 255));
    } else {
      assert s == [s[0]] + s[1..];
    }
  }

  lemma LengthRead(n: int, t: seq<Byte>)
    requires n >= 0
    ensures ReadLength(Extra(n) + t, Nibble(n)) == Some((n, t))
  {
    if n < 15 { assert [] + t == t; } else { RunRead(n - 15, 15, t); }
  }

  lemma LengthWritten(s: seq<Byte>, low: int)
    requires 0 <= low < 16 && ReadLength(s, low).Some?
    ensures var r := ReadLength(s, low).value; r.0 >= 0 && s == Extra(r.0) + r.1 && Nibble(r.0) == low && |r.1| <= |s|
  {
    if low == 15 { RunWritten(s, 15); } else { assert [] + s == s; }
  }

  // ---- The decoder decodes the grammar -------------------------------------------------------

  lemma {:induction false} ExpandGrows(out: seq<Byte>, b: Block)
    requires WellFormedBlock(b) && Expand(out, b).Some?
    ensures |out| <= |Expand(out, b).value|
    decreases b
  {
    match b
    case End =>
    case Tail(_, _) =>
    case Then(q, t) => ExpandGrows(Copy(out + q.literals, q.offset, q.length), t);
  }

  lemma LiteralsRead(low: int, l: seq<Byte>, t: seq<Byte>, out: seq<Byte>, cap: int)
    requires 0 <= low < 16 && |out| + |l| <= cap
    ensures Decode(Literals(Token(|l|, low), l, t), out, cap) == DecodeMatch(t, out + l, cap, low)
  {
    var n, s := |l|, Literals(Token(|l|, low), l, t);
    TokenParts(n, low);
    LengthRead(n, l + t);
    assert s[1..] == Extra(n) + (l + t);
    assert (l + t)[..n] == l && (l + t)[n..] == t;
    assert DecodeToken(s, out, cap) == DecodeMatch(t, out + l, cap, low);
  }

  lemma Halves(offset: int)
    requires 1 <= offset < 0x10000
    ensures 0 <= offset % 256 < 256 && 0 <= offset / 256 < 256 && Word(offset % 256, offset / 256) == offset
  {
  }

  lemma Joined(lo: Byte, hi: Byte)
    ensures Word(lo, hi) % 256 == lo && Word(lo, hi) / 256 == hi && 0 <= Word(lo, hi) < 0x10000
  {
  }

  lemma MatchRead(offset: int, length: int, t: seq<Byte>, out: seq<Byte>, cap: int)
    requires 1 <= offset < 0x10000 && length >= MIN_MATCH && offset <= |out| && |out| + length <= cap
    ensures DecodeMatch(Match(offset, length, t), out, cap, Nibble(length - MIN_MATCH)) == Decode(t, Copy(out, offset, length), cap)
  {
    var m, s := length - MIN_MATCH, Match(offset, length, t);
    LengthRead(m, t);
    assert s[2..] == Extra(m) + t;
    Halves(offset);
    assert DecodeOffset(s, out, cap, Nibble(m)) == Decode(t, Copy(out, offset, length), cap);
  }

  lemma TokenParts(n: int, low: int)
    requires n >= 0 && 0 <= low < 16
    ensures Token(n, low) / 16 == Nibble(n) && Token(n, low) % 16 == low
  {
  }

  lemma SequenceRead(q: Sequence, t: seq<Byte>, out: seq<Byte>, cap: int)
    requires WellFormed(q) && q.offset <= |out| + |q.literals| && |out| + |q.literals| + q.length <= cap
    ensures Decode(EncodeSequence(q, t), out, cap) == Decode(t, Copy(out + q.literals, q.offset, q.length), cap)
  {
    var l, low, m := q.literals, Nibble(q.length - MIN_MATCH), Match(q.offset, q.length, t);
    assert EncodeSequence(q, t) == Literals(Token(|l|, low), l, m);
    LiteralsRead(low, l, m, out, cap);
    AfterLiterals(q, t, out + l, cap);
  }

  lemma AfterLiterals(q: Sequence, t: seq<Byte>, out: seq<Byte>, cap: int)
    requires WellFormed(q) && q.offset <= |out| && |out| + q.length <= cap
    ensures DecodeMatch(Match(q.offset, q.length, t), out, cap, Nibble(q.length - MIN_MATCH)) == Decode(t, Copy(out, q.offset, q.length), cap)
  {
    MatchRead(q.offset, q.length, t, out, cap);
  }

  lemma CompleteTail(l: seq<Byte>, low: int, out: seq<Byte>, cap: int)
    requires 0 <= low < 16 && |out + l| <= cap
    ensures Decode(EncodeBlock(Tail(l, low)), out, cap) == Done(out + l)
  {
    LiteralsRead(low, l, [], out, cap);
  }

  /** Every block of the grammar whose expansion is defined and fits decodes to that expansion. */
  lemma {:induction false} Complete(b: Block, out: seq<Byte>, cap: int)
    requires WellFormedBlock(b) && Expand(out, b).Some? && |Expand(out, b).value| <= cap
    ensures Decode(EncodeBlock(b), out, cap) == Done(Expand(out, b).value)
    decreases b
  {
    match b
    case End =>
    case Tail(l, low) => CompleteTail(l, low, out, cap);
    case Then(q, t) =>
      var next := Copy(out + q.literals, q.offset, q.length);
      ExpandGrows(next, t);
      Complete(t, next, cap);
      SequenceRead(q, EncodeBlock(t), out, cap);
  }

  lemma TokenJoined(b: Byte)
    ensures b == b / 16 * 16 + b % 16 && 0 <= b / 16 < 16
  {
  }

  lemma LiteralsWritten(s: seq<Byte>, n: int, rest: seq<Byte>)
    requires s != [] && ReadLength(s[1..], s[0] / 16) == Some((n, rest)) && n <= |rest|
    ensures n >= 0 && s == Literals(s[0], rest[..n], rest[n..]) && s[0] == Token(n, s[0] % 16) && |rest| < |s|
  {
    LengthWritten(s[1..], s[0] / 16);
    TokenJoined(s[0]);
    var l, t := rest[..n], rest[n..];
    assert s == [s[0]] + s[1..];
    assert rest == l + t;
    Assoc([s[0]], Extra(n), l + t);
    Assoc([s[0]] + Extra(n), l, t);
  }

  lemma MatchWritten(s: seq<Byte>, low: int, m: int, rest: seq<Byte>)
    requires |s| >= 2 && 0 <= low < 16 && Word(s[0], s[1]) != 0 && ReadLength(s[2..], low) == Some((m, rest))
    ensures 1 <= Word(s[0], s[1]) < 0x10000 && m >= 0 && Nibble(m) == low && |rest| < |s|
    ensures s == Match(Word(s[0], s[1]), m + MIN_MATCH, rest)
  {
    Joined(s[0], s[1]);
    LengthWritten(s[2..], low);
    assert s == [s[0], s[1]] + s[2..];
    Assoc([s[0], s[1]], Extra(m), rest);
  }

  /** Whatever decodes is the expansion of a block of the grammar that is written just like the input. */
  lemma {:induction false} Sound(s: seq<Byte>, out: seq<Byte>, cap: int) returns (b: Block)
    requires Decode(s, out, cap).Done? && |out| <= cap
    ensures WellFormedBlock(b) && EncodeBlock(b) == s
    ensures Expand(out, b) == Some(Decode(s, out, cap).out) && |Decode(s, out, cap).out| <= cap
    decreases |s|, 1
  {
    if s == [] { return End; }
    var lits, s2, low := SoundLiterals(s, out, cap);
    if s2 == [] {
      b := Tail(lits, low);
    } else {
      var offset, length, t := SoundMatch(s2, out + lits, cap, low);
      b := Then(Sequence(lits, offset, length), t);
      SoundThen(s, s2, out, lits, low, offset, length, t);
    }
  }

  lemma SoundThen(s: seq<Byte>, s2: seq<Byte>, out: seq<Byte>, lits: seq<Byte>, low: int, offset: int, length: int, t: Block)
    requires 0 <= low < 16 && s == Literals(Token(|lits|, low), lits, s2) && WellFormedBlock(t)
    requires 1 <= offset < 0x10000 && offset <= |out + lits| && length >= MIN_MATCH && Nibble(length - MIN_MATCH) == low
    requires s2 == Match(offset, length, EncodeBlock(t))
    ensures var b := Then(Sequence(lits, offset, length), t);
            WellFormedBlock(b) && EncodeBlock(b) == s && Expand(out, b) == Expand(Copy(out + lits, offset, length), t)
  {
  }

  lemma SoundLiterals(s: seq<Byte>, out: seq<Byte>, cap: int) returns (l: seq<Byte>, t: seq<Byte>, low: int)
    requires s != [] && Decode(s, out, cap).Done? && |out| <= cap
    ensures 0 <= low < 16 && s == Literals(Token(|l|, low), l, t) && |t| < |s| && |out + l| <= cap
    ensures Decode(s, out, cap) == DecodeMatch(t, out + l, cap, low)
  {
    var r := ReadLength(s[1..], s[0] / 16).value;
    LengthWritten(s[1..], s[0] / 16);
    LiteralsWritten(s, r.0, r.1);
    l, t, low := r.1[..r.0], r.1[r.0..], s[0] % 16;
  }

  lemma {:induction false} SoundMatch(s: seq<Byte>, out: seq<Byte>, cap: int, low: int) returns (offset: int, length: int, t: Block)
    requires 0 <= low < 16 && s != [] && DecodeMatch(s, out, cap, low).Done? && |out| <= cap
    ensures 1 <= offset < 0x10000 && offset <= |out| && length >= MIN_MATCH && Nibble(length - MIN_MATCH) == low
    ensures WellFormedBlock(t) && s == Match(offset, length, EncodeBlock(t))
    ensures var r := DecodeMatch(s, out, cap, low).out; Expand(Copy(out, offset, length), t) == Some(r) && |r| <= cap
    decreases |s|, 0
  {
    var r := ReadLength(s[2..], low).value;
    MatchWritten(s, low, r.0, r.1);
    offset, length := Word(s[0], s[1]), r.0 + MIN_MATCH;
    t := Sound(r.1, Copy(out, offset, length), cap);
  }

  /** A block decodes exactly when it is written in the grammar, expands, and fits. */
  lemma MeansIff(s: seq<Byte>, cap: int, e: seq<Byte>)
    requires cap >= 0
    ensures Decode(s, [], cap) == Done(e) <==> exists b :: Spells(b, s, e) && |e| <= cap
  {
    if Decode(s, [], cap) == Done(e) {
      var b := Sound(s, [], cap);
      assert Spells(b, s, e);
    }
    if b :| Spells(b, s, e) && |e| <= cap { Complete(b, [], cap); }
  }

  ghost predicate Spells(b: Block, s: seq<Byte>, e: seq<Byte>) {
    WellFormedBlock(b) && EncodeBlock(b) == s && Expand([], b) == Some(e)
  }

  // ---- Sums of 32 bits -----------------------------------------------------------------------

  /** The first number that a signed integer of 32 bits does not hold. */
  const TOP := 0x8000_0000

  /** What such an integer holds of a number. */
  function Wrap(n: int): int { (n + TOP) % (2 * TOP) - TOP }

  /** A sum is right if and only if it is below 2^31. */
  lemma WrapIff(n: int)
    requires n >= 0
    ensures Wrap(n) == n <==> n < TOP
    ensures TOP <= n < 2 * TOP ==> Wrap(n) == n - 2 * TOP < 0
  {
  }

  /** The test of a position and a size against a limit is right if and only if their sum is below 2^31. */
  lemma GuardIff(at: int, n: int, limit: int)
    requires 0 <= at <= limit < TOP && 0 <= n < TOP
    ensures (Wrap(at + n) > limit <==> at + n > limit) <==> at + n < TOP
  {
    WrapIff(at + n);
  }

  lemma WrapSum(n: int, b: int)
    ensures Wrap(Wrap(n) + b) == Wrap(n + b)
  {
  }

  /** The block decoder with the lengths it has. A length that came out below 1 copies nothing. */
  function Decode32(s: seq<Byte>, out: seq<Byte>, cap: int): Result
    decreases |s|, 1
  {
    if s == [] then Done(out) else DecodeToken32(s, out, cap)
  }

  function DecodeToken32(s: seq<Byte>, out: seq<Byte>, cap: int): Result
    requires s != []
    decreases |s|, 0
  {
    var lit := ReadLength(s[1..], s[0] / 16);
    if lit.None? then Fail(-1)
    else
      ReadRunShrinks(s[1..], 15);
      var n, s1 := Wrap(lit.value.0), lit.value.1;
      if n > 0 && (|out| + n > cap || n > |s1|) then Fail(-2)
      else
        var k := if n > 0 then n else 0;
        DecodeMatch32(s1[k..], out + s1[..k], cap, s[0] % 16)
  }

  function DecodeMatch32(s: seq<Byte>, out: seq<Byte>, cap: int, low: int): Result
    requires 0 <= low < 16
    decreases |s|, 1
  {
    if s == [] then Done(out) else DecodeOffset32(s, out, cap, low)
  }

  function DecodeOffset32(s: seq<Byte>, out: seq<Byte>, cap: int, low: int): Result
    requires 0 <= low < 16
    decreases |s|, 0
  {
    if |s| < 2 then Fail(-3)
    else
      var offset := Word(s[0], s[1]);
      if offset == 0 then Fail(-4)
      else
        var len := ReadLength(s[2..], low);
        if len.None? then Fail(-5)
        else
          ReadRunShrinks(s[2..], 15);
          var m := Wrap(len.value.0 + MIN_MATCH);
          if offset > |out| || |out| + m > cap then Fail(-6)
          else Decode32(len.value.1, if m > 0 then Copy(out, offset, m) else out, cap)
  }

  /** Every length that is read, up to the end or the first error, is one the code can hold. */
  ghost predicate LengthsFit(s: seq<Byte>, out: seq<Byte>, cap: int)
    decreases |s|, 1
  {
    s == [] || TokenFits(s, out, cap)
  }

  ghost predicate TokenFits(s: seq<Byte>, out: seq<Byte>, cap: int)
    requires s != []
    decreases |s|, 0
  {
    var lit := ReadLength(s[1..], s[0] / 16);
    lit.None? || (
      ReadRunShrinks(s[1..], 15);
      var n, s1 := lit.value.0, lit.value.1;
      n < TOP && ((n > 0 && (|out| + n > cap || n > |s1|)) || MatchFits(s1[n..], out + s1[..n], cap, s[0] % 16)))
  }

  ghost predicate MatchFits(s: seq<Byte>, out: seq<Byte>, cap: int, low: int)
    requires 0 <= low < 16
    decreases |s|, 1
  {
    |s| < 2 || Word(s[0], s[1]) == 0 || ReadLength(s[2..], low).None? || Word(s[0], s[1]) > |out| || OffsetFits(s, out, cap, low)
  }

  ghost predicate OffsetFits(s: seq<Byte>, out: seq<Byte>, cap: int, low: int)
    requires 0 <= low < 16 && |s| >= 2 && 1 <= Word(s[0], s[1]) <= |out| && ReadLength(s[2..], low).Some?
    decreases |s|, 0
  {
    ReadRunShrinks(s[2..], 15);
    var len := ReadLength(s[2..], low).value;
    var m := len.0 + MIN_MATCH;
    m < TOP && (|out| + m > cap || LengthsFit(len.1, Copy(out, Word(s[0], s[1]), m), cap))
  }

  /** Where all lengths fit, the code decodes as the format means. */
  lemma {:induction false} FitsAgrees(s: seq<Byte>, out: seq<Byte>, cap: int)
    requires LengthsFit(s, out, cap)
    ensures Decode32(s, out, cap) == Decode(s, out, cap)
    decreases |s|, 1
  {
    if s != [] {
      ReadRunShrinks(s[1..], 15);
      var lit := ReadLength(s[1..], s[0] / 16);
      if lit.Some? {
        var n, s1 := lit.value.0, lit.value.1;
        WrapIff(n);
        if n == 0 || (|out| + n <= cap && n <= |s1|) { MatchAgrees(s1[n..], out + s1[..n], cap, s[0] % 16); }
      }
    }
  }

  lemma {:induction false} MatchAgrees(s: seq<Byte>, out: seq<Byte>, cap: int, low: int)
    requires 0 <= low < 16 && MatchFits(s, out, cap, low)
    ensures DecodeMatch32(s, out, cap, low) == DecodeMatch(s, out, cap, low)
    decreases |s|, 0
  {
    if |s| >= 2 && Word(s[0], s[1]) != 0 && ReadLength(s[2..], low).Some? && Word(s[0], s[1]) <= |out| {
      ReadRunShrinks(s[2..], 15);
      var len := ReadLength(s[2..], low).value;
      var m := len.0 + MIN_MATCH;
      WrapIff(m);
      if |out| + m <= cap { FitsAgrees(len.1, Copy(out, Word(s[0], s[1]), m), cap); }
    }
  }

  /** Where some length does not fit, the format has no expansion. */
  lemma {:induction false} UnfitFails(s: seq<Byte>, out: seq<Byte>, cap: int)
    requires !LengthsFit(s, out, cap) && cap < TOP
    ensures Decode(s, out, cap).Fail?
    decreases |s|, 1
  {
    ReadRunShrinks(s[1..], 15);
    var lit := ReadLength(s[1..], s[0] / 16).value;
    var n, s1 := lit.0, lit.1;
    if n < TOP && (n == 0 || (|out| + n <= cap && n <= |s1|)) { UnfitMatch(s1[n..], out + s1[..n], cap, s[0] % 16); }
  }

  lemma {:induction false} UnfitMatch(s: seq<Byte>, out: seq<Byte>, cap: int, low: int)
    requires 0 <= low < 16 && !MatchFits(s, out, cap, low) && cap < TOP
    ensures DecodeMatch(s, out, cap, low).Fail?
    decreases |s|, 0
  {
    ReadRunShrinks(s[2..], 15);
    var len := ReadLength(s[2..], low).value;
    var m := len.0 + MIN_MATCH;
    if m < TOP && |out| + m <= cap { UnfitFails(len.1, Copy(out, Word(s[0], s[1]), m), cap); }
  }

  /** The code succeeds with lengths that fit exactly on the blocks of the grammar that expand and fit; when it
      succeeds, its output is what some block stands for if and only if all lengths fit. */
  lemma DecodesIff(s: seq<Byte>, cap: int, e: seq<Byte>)
    requires 0 <= cap < TOP
    ensures Decode32(s, [], cap) == Done(e) && LengthsFit(s, [], cap) <==> exists b :: Spells(b, s, e) && |e| <= cap
    ensures Decode32(s, [], cap) == Done(e) ==> (LengthsFit(s, [], cap) <==> exists b :: Spells(b, s, e) && |e| <= cap)
  {
    MeansIff(s, cap, e);
    if LengthsFit(s, [], cap) { FitsAgrees(s, [], cap); } else { UnfitFails(s, [], cap); }
  }

  // ---- Sources that are short enough ---------------------------------------------------------

  /** The longest source that cannot hold a length of 2^31. */
  const SHORT := 8_421_505

  lemma {:induction false} RunBound(s: seq<Byte>, n: int)
    requires ReadRun(s, n).Some?
    ensures var r := ReadRun(s, n).value; r.0 < n + 255 * (|s| - |r.1|)
    decreases |s|
  {
    if s[0] == 255 { RunBound(s[1..], n + 255); }
  }

  lemma LengthBound(s: seq<Byte>, low: int)
    requires 0 <= low < 16 && ReadLength(s, low).Some?
    ensures var r := ReadLength(s, low).value; r.0 < 16 + 255 * |s| && |r.1| <= |s|
  {
    ReadRunShrinks(s, 15);
    if low == 15 { RunBound(s, 15); }
  }

  /** In a source of at most 8421505 bytes every length fits. */
  lemma {:induction false} ShortFits(s: seq<Byte>, out: seq<Byte>, cap: int)
    requires |s| <= SHORT
    ensures LengthsFit(s, out, cap)
    decreases |s|, 1
  {
    if s != [] && ReadLength(s[1..], s[0] / 16).Some? {
      ReadRunShrinks(s[1..], 15);
      LengthBound(s[1..], s[0] / 16);
      var lit := ReadLength(s[1..], s[0] / 16).value;
      if lit.0 == 0 || (|out| + lit.0 <= cap && lit.0 <= |lit.1|) { ShortMatchFits(lit.1[lit.0..], out + lit.1[..lit.0], cap, s[0] % 16); }
    }
  }

  lemma {:induction false} ShortMatchFits(s: seq<Byte>, out: seq<Byte>, cap: int, low: int)
    requires |s| < SHORT && 0 <= low < 16
    ensures MatchFits(s, out, cap, low)
    decreases |s|, 0
  {
    if |s| >= 2 && Word(s[0], s[1]) != 0 && ReadLength(s[2..], low).Some? && Word(s[0], s[1]) <= |out| {
      ReadRunShrinks(s[2..], 15);
      LengthBound(s[2..], low);
      var len := ReadLength(s[2..], low).value;
      if |out| + len.0 + MIN_MATCH <= cap { ShortFits(len.1, Copy(out, Word(s[0], s[1]), len.0 + MIN_MATCH), cap); }
    }
  }

  lemma {:induction false} RunSize(n: int)
    requires n >= 0
    ensures |Run(n)| == n / 255 + 1
    decreases n
  {
    if n >= 255 { RunSize(n - 255); }
  }

  /** One byte more can go wrong: literals of length 2^31 are taken for none, and the code gives an empty output. */
  lemma LiteralsWrap(cap: int)
    requires 0 <= cap < TOP
    ensures var s := [0xF0] + Run(TOP - 15);
            |s| == SHORT + 1 && Decode32(s, [], cap) == Done([]) && Decode(s, [], cap) == Fail(-2)
  {
    var r := Run(TOP - 15);
    var s := [0xF0] + r;
    RunSize(TOP - 15);
    assert s[1..] == r + [];
    RunRead(TOP - 15, 15, []);
    WrapIff(TOP);
    var none: seq<Byte> := [];
    assert none[0..] == none && none + none[..0] == none;
    assert DecodeToken32(s, none, cap) == DecodeMatch32(none[0..], none + none[..0], cap, 0);
  }

  lemma OneLiteral(t: seq<Byte>, cap: int)
    requires 1 <= cap
    ensures Decode32([0x1F, 97] + t, [], cap) == DecodeMatch32(t, [97], cap, 15)
    ensures Decode([0x1F, 97] + t, [], cap) == DecodeMatch(t, [97], cap, 15)
  {
    var s, none: seq<Byte> := [0x1F, 97] + t, [];
    var s1 := s[1..];
    assert s1 == [97] + t && s1[..1] == [97] && s1[1..] == t && none + [97] == [97];
    WrapIff(1);
    assert ReadLength(s1, 1) == Some((1, s1));
    assert DecodeToken32(s, none, cap) == DecodeMatch32(t, [97], cap, 15);
    assert DecodeToken(s, none, cap) == DecodeMatch(t, [97], cap, 15);
  }

  lemma LongMatch(n: int, out: seq<Byte>, cap: int)
    requires TOP <= 15 + n + MIN_MATCH < 2 * TOP && 1 <= |out| <= cap < TOP
    ensures DecodeMatch32([1, 0] + Run(n), out, cap, 15) == Done(out) && DecodeMatch([1, 0] + Run(n), out, cap, 15) == Fail(-6)
  {
    var t: seq<Byte> := [1, 0] + Run(n);
    assert t[2..] == Run(n) + [];
    RunRead(n, 15, []);
    WrapIff(15 + n + MIN_MATCH);
    assert DecodeOffset32(t, out, cap, 15) == Decode32([], out, cap);
  }

  /** So can a match: its length comes out negative, nothing is copied and one literal is all the output. */
  lemma MatchWraps(cap: int)
    requires 1 <= cap < TOP
    ensures var s := [0x1F, 97, 1, 0] + Run(255 * 8_421_504 + 254);
            Decode32(s, [], cap) == Done([97]) && Decode(s, [], cap) == Fail(-6)
  {
    var n := 255 * 8_421_504 + 254;
    var t: seq<Byte> := [1, 0] + Run(n);
    assert [0x1F, 97, 1, 0] + Run(n) == [0x1F, 97] + t;
    OneLiteral(t, cap);
    LongMatch(n, [97], cap);
  }

  // ---- The block decoder as code -------------------------------------------------------------

  method TakeLength(src: seq<Byte>, start: int, n: int) returns (ok: bool, len: int, ip: int)
    requires 0 <= start <= |src| && 0 <= n < 16
    ensures match ReadLength(src[start..], n) {
              case None => !ok
              case Some(r) => ok && len == Wrap(r.0) && start <= ip <= |src| && src[ip..] == r.1
            }
  {
    len, ip := n, start;
    if n == 15 {
      ghost var sum: int := 15;
      while true
        invariant start <= ip <= |src| && len == Wrap(sum) && ReadRun(src[start..], 15) == ReadRun(src[ip..], sum)
        decreases |src| - ip
      {
        if ip >= |src| { return false, 0, 0; }
        var b := src[ip];
        assert src[ip..][1..] == src[ip + 1..];
        WrapSum(sum, b);
        ip := ip + 1;
        len := Wrap(len + b);
        sum := sum + b;
        if b != 255 { break; }
      }
    }
    ok := true;
  }

  method PutLiterals(dst: array<Byte>, base: int, op: int, src: seq<Byte>, ip: int, n: int)
    requires 0 <= base <= op && 0 <= n && op + n <= dst.Length && 0 <= ip && ip + n <= |src|
    modifies dst
    ensures dst[..base] == old(dst[..base]) && dst[base..op + n] == old(dst[base..op]) + src[ip..ip + n]
  {
    ghost var out := dst[base..op];
    for i := 0 to n
      invariant dst[..base] == old(dst[..base]) && dst[base..op + i] == out + src[ip..ip + i]
    {
      ghost var was := dst[base..op + i];
      dst[op + i] := src[ip + i];
      assert dst[base..op + i + 1] == was + [src[ip + i]];
      assert src[ip..ip + i + 1] == src[ip..ip + i] + [src[ip + i]];
    }
  }

  lemma {:induction false} CopyMore(out: seq<Byte>, offset: int, n: int)
    requires 1 <= offset <= |out| && n >= 0
    ensures var c := Copy(out, offset, n); Copy(out, offset, n + 1) == c + [c[|c| - offset]]
    decreases n
  {
    if n > 0 { CopyMore(out + [out[|out| - offset]], offset, n - 1); }
  }

  method PutMatch(dst: array<Byte>, base: int, op: int, offset: int, n: int)
    requires 0 <= base <= op && 1 <= offset <= op - base && 0 <= n && op + n <= dst.Length
    modifies dst
    ensures dst[..base] == old(dst[..base]) && dst[base..op + n] == Copy(old(dst[base..op]), offset, n)
  {
    ghost var out := dst[base..op];
    for i := 0 to n
      invariant dst[..base] == old(dst[..base]) && dst[base..op + i] == Copy(out, offset, i)
    {
      CopyMore(out, offset, i);
      ghost var was := dst[base..op + i];
      assert was[|was| - offset] == dst[op + i - offset];
      dst[op + i] := dst[op + i - offset];
      assert dst[base..op + i + 1] == was + [dst[op + i]];
    }
  }

  ghost predicate Agrees(r: Result, n: int, dst: array<Byte>, base: int)
    requires 0 <= base <= dst.Length
    reads dst
  {
    match r
    case Fail(code) => n == code < 0
    case Done(out) => n == |out| && base + n <= dst.Length && dst[base..base + n] == out
  }

  /** A token and its literals. A code below 0 is the decoder's answer. */
  method TakeLiterals(src: seq<Byte>, start: int, dst: array<Byte>, base: int, from: int, room: int)
    returns (code: int, ip: int, op: int)
    requires 0 <= start < |src| && 0 <= base <= from <= base + room <= dst.Length
    modifies dst
    ensures dst[..base] == old(dst[..base])
    ensures code < 0 ==> Decode32(src[start..], old(dst[base..from]), room) == Fail(code)
    ensures code >= 0 ==> start < ip <= |src| && from <= op <= base + room
    ensures code >= 0 ==> Decode32(src[start..], old(dst[base..from]), room) == DecodeMatch32(src[ip..], dst[base..op], room, src[start] % 16)
  {
    var token := src[start];
    var ok, n;
    ok, n, ip := TakeLength(src, start + 1, token / 16);
    assert src[start..][1..] == src[start + 1..];
    if !ok { return -1, 0, 0; }
    ghost var out, s1 := dst[base..from], src[ip..];
    op := from;
    if n > 0 {
      if op + n > base + room || ip + n > |src| { return -2, 0, 0; }
      assert s1[..n] == src[ip..ip + n] && s1[n..] == src[ip + n..];
      PutLiterals(dst, base, op, src, ip, n);
      op, ip := op + n, ip + n;
    }
    ghost var k := if n > 0 then n else 0;
    assert src[ip..] == s1[k..] && dst[base..op] == out + s1[..k];
    code := 0;
  }

  /** An offset, a length and the copy. */
  method TakeMatch(src: seq<Byte>, start: int, dst: array<Byte>, base: int, from: int, room: int, low: int)
    returns (code: int, ip: int, op: int)
    requires 0 <= start < |src| && 0 <= base <= from <= base + room <= dst.Length && 0 <= low < 16
    modifies dst
    ensures dst[..base] == old(dst[..base])
    ensures code < 0 ==> DecodeMatch32(src[start..], old(dst[base..from]), room, low) == Fail(code)
    ensures code >= 0 ==> start < ip <= |src| && from <= op <= base + room
    ensures code >= 0 ==> DecodeMatch32(src[start..], old(dst[base..from]), room, low) == Decode32(src[ip..], dst[base..op], room)
  {
    if start + 2 > |src| { return -3, 0, 0; }
    var offset := Word(src[start], src[start + 1]);
    if offset == 0 { return -4, 0, 0; }
    var ok, n;
    ok, n, ip := TakeLength(src, start + 2, low);
    assert src[start..][2..] == src[start + 2..];
    if !ok { return -5, 0, 0; }
    WrapSum(ReadLength(src[start + 2..], low).value.0, MIN_MATCH);
    n := Wrap(n + MIN_MATCH);
    if offset > from - base || from + n > base + room { return -6, 0, 0; }
    Joined(src[start], src[start + 1]);
    code, op := 0, from;
    if n > 0 {
      PutMatch(dst, base, from, offset, n);
      op := from + n;
    }
  }

  /** The block decoder: its code and its output, and nothing before base is touched. */
  method DecompressBlock(src: seq<Byte>, dst: array<Byte>, base: int, room: int) returns (n: int)
    requires 0 <= base && 0 <= room && base + room <= dst.Length
    modifies dst
    ensures dst[..base] == old(dst[..base]) && Agrees(Decode32(src, [], room), n, dst, base)
  {
    var ip, op := 0, base;
    assert src[0..] == src && dst[base..base] == [];
    while ip < |src|
      invariant 0 <= ip <= |src| && base <= op <= base + room && dst[..base] == old(dst[..base])
      invariant Decode32(src, [], room) == Decode32(src[ip..], dst[base..op], room)
      decreases |src| - ip
    {
      var low, code := src[ip] % 16, 0;
      code, ip, op := TakeLiterals(src, ip, dst, base, op, room);
      if code < 0 { return code; }
      if ip >= |src| { break; }
      code, ip, op := TakeMatch(src, ip, dst, base, op, room, low);
      if code < 0 { return code; }
    }
    assert src[ip..] == [];
    return op - base;
  }

  // ---- Frames --------------------------------------------------------------------------------

  const MAGIC := 0x184D2204
  const STORED := 0x8000_0000

  /** A number with its lowest byte first. */
  function Little(s: seq<Byte>): int
    decreases |s|
  {
    if s == [] then 0 else s[0] + 0x100 * Little(s[1..])
  }

  function Bytes(n: int, k: int): (s: seq<Byte>)
    requires n >= 0 && k >= 0
    ensures |s| == k
    decreases k, n
  {
    if k == 0 then [] else [n % 0x100] + Bytes(n / 0x100, k - 1)
  }

  function Limit(k: int): int
    requires k >= 0
    decreases k, 0
  {
    if k == 0 then 1 else 0x100 * Limit(k - 1)
  }

  lemma {:induction false} LittleBytes(n: int, k: int)
    requires 0 <= n && k >= 0 && n < Limit(k)
    ensures Little(Bytes(n, k)) == n
    decreases k
  {
    if k > 0 {
      LittleBytes(n / 0x100, k - 1);
      assert Bytes(n, k)[1..] == Bytes(n / 0x100, k - 1);
    }
  }

  lemma {:induction false} BytesLittle(s: seq<Byte>)
    ensures 0 <= Little(s) < Limit(|s|) && Bytes(Little(s), |s|) == s
    decreases |s|
  {
    if s != [] {
      BytesLittle(s[1..]);
      LowByte(s[0], Little(s[1..]));
      assert s == [s[0]] + s[1..];
    }
  }

  lemma LowByte(b: int, n: int)
    requires 0 <= b < 256
    ensures (b + 0x100 * n) % 0x100 == b && (b + 0x100 * n) / 0x100 == n
  {
  }

  function Size(s: seq<Byte>): int
    requires |s| >= 4
  {
    Little(s[..4])
  }

  function SizeBytes(n: int): (s: seq<Byte>)
    requires 0 <= n < 0x1_0000_0000
    ensures |s| == 4
  {
    Bytes(n, 4)
  }

  /** A piece of a frame, stored as it is or as a block, with the checksum nobody reads. */
  datatype Piece = Stored(bytes: seq<Byte>, sum: seq<Byte>) | Packed(block: Block, sum: seq<Byte>)

  /** The pieces of a frame up to the end mark, or up to a rest too short for another size. */
  datatype Pieces = Stop(trail: seq<Byte>) | Next(piece: Piece, rest: Pieces)

  function Payload(p: Piece): seq<Byte>
    requires p.Packed? ==> WellFormedBlock(p.block)
  {
    if p.Stored? then p.bytes else EncodeBlock(p.block)
  }

  predicate PieceOk(p: Piece, sums: bool) {
    && (p.Packed? ==> WellFormedBlock(p.block) && Expand([], p.block).Some? && EncodeBlock(p.block) != [])
    && |Payload(p)| < STORED && |p.sum| == if sums then 4 else 0
  }

  function Content(p: Piece): seq<Byte>
    requires p.Packed? ==> WellFormedBlock(p.block) && Expand([], p.block).Some?
  {
    if p.Stored? then p.bytes else Expand([], p.block).value
  }

  function PieceBytes(p: Piece, sums: bool, t: seq<Byte>): seq<Byte>
    requires PieceOk(p, sums)
  {
    SizeBytes(|Payload(p)| + if p.Stored? then STORED else 0) + Payload(p) + p.sum + t
  }

  predicate Stops(t: seq<Byte>) { |t| < 4 || Size(t) == 0 }

  predicate PiecesOk(l: Pieces, sums: bool) {
    match l
    case Stop(t) => Stops(t)
    case Next(p, r) => PieceOk(p, sums) && PiecesOk(r, sums)
  }

  function EncodePieces(l: Pieces, sums: bool): seq<Byte>
    requires PiecesOk(l, sums)
  {
    match l
    case Stop(t) => t
    case Next(p, r) => PieceBytes(p, sums, EncodePieces(r, sums))
  }

  /** The contents of the pieces, one after the other: no piece depends on another. */
  function Contents(l: Pieces, sums: bool): seq<Byte>
    requires PiecesOk(l, sums)
  {
    match l
    case Stop(_) => []
    case Next(p, r) => Content(p) + Contents(r, sums)
  }

  function Unpack(payload: seq<Byte>, stored: bool, room: int): Result {
    if stored then (if |payload| > room then Fail(-17) else Done(payload)) else Decode(payload, [], room)
  }

  function Blocks(s: seq<Byte>, out: seq<Byte>, cap: int, sums: bool): Result
    decreases |s|
  {
    if Stops(s) then Done(out)
    else
      var stored, n := Size(s) >= STORED, Size(s) % STORED;
      if 4 + n > |s| then Fail(-16)
      else
        var r := Unpack(s[4..4 + n], stored, cap - |out|);
        if r.Fail? then r
        else if sums then (if 4 + n + 4 > |s| then Fail(-18) else Blocks(s[4 + n + 4..], out + r.out, cap, sums))
        else Blocks(s[4 + n..], out + r.out, cap, sums)
  }

  lemma FourBytes()
    ensures Limit(4) == 0x1_0000_0000
  {
    assert Limit(1) == 0x100 && Limit(2) == 0x1_0000 && Limit(3) == 0x100_0000;
  }

  lemma SizeRead(n: int)
    requires 0 <= n < 0x1_0000_0000
    ensures Size(SizeBytes(n)) == n
  {
    FourBytes();
    LittleBytes(n, 4);
    assert SizeBytes(n)[..4] == SizeBytes(n);
  }

  lemma SizeWritten(s: seq<Byte>)
    requires |s| >= 4
    ensures 0 <= Size(s) < 0x1_0000_0000 && SizeBytes(Size(s)) == s[..4]
  {
    FourBytes();
    BytesLittle(s[..4]);
  }

  lemma Slices<T>(a: seq<T>, b: seq<T>, c: seq<T>, d: seq<T>)
    ensures var s := a + b + c + d;
      s[..|a|] == a && s[|a|..|a| + |b|] == b && s[|a| + |b| + |c|..] == d && |s| == |a| + |b| + |c| + |d|
  {
  }

  lemma Unsliced<T>(s: seq<T>, i: int, j: int, k: int)
    requires 0 <= i <= j <= k <= |s|
    ensures s == s[..i] + s[i..j] + s[j..k] + s[k..]
  {
  }

  lemma StoredSize(n: int)
    requires 0 <= n < STORED
    ensures (n + STORED) % STORED == n && n % STORED == n
  {
  }

  lemma SizeSplit(z: int)
    requires 0 <= z < 0x1_0000_0000
    ensures 0 <= z % STORED < STORED && z == z % STORED + if z >= STORED then STORED else 0
  {
  }

  /** The refusals of a frame: a piece that is not all there, stored bytes without room, a missing checksum. */
  lemma PieceRefused(n: int, t: seq<Byte>, out: seq<Byte>, cap: int, sums: bool)
    requires 0 < n < STORED
    ensures var s := SizeBytes(STORED + n) + t;
            && (|t| < n ==> Blocks(s, out, cap, sums) == Fail(-16))
            && (|t| >= n && |out| + n > cap ==> Blocks(s, out, cap, sums) == Fail(-17))
            && (n <= |t| < n + 4 && |out| + n <= cap && sums ==> Blocks(s, out, cap, sums) == Fail(-18))
    ensures |t| < n ==> Blocks(SizeBytes(n) + t, out, cap, sums) == Fail(-16)
  {
    SizeRead(STORED + n);
    SizeRead(n);
    var s, z := SizeBytes(STORED + n) + t, SizeBytes(n) + t;
    assert s[..4] == SizeBytes(STORED + n) && s[..4][..4] == s[..4];
    assert z[..4] == SizeBytes(n) && z[..4][..4] == z[..4];
    SizeSplit(STORED + n);
  }

  /** One turn of the block loop. */
  lemma BlocksStep(s: seq<Byte>, n: int, k: int, out: seq<Byte>, cap: int, sums: bool)
    requires !Stops(s) && n == Size(s) % STORED && k == (if sums then 4 else 0) && 4 + n + k <= |s|
    requires Unpack(s[4..4 + n], Size(s) >= STORED, cap - |out|).Done?
    ensures Blocks(s, out, cap, sums) == Blocks(s[4 + n + k..], out + Unpack(s[4..4 + n], Size(s) >= STORED, cap - |out|).out, cap, sums)
  {
  }

  ghost predicate Shape(s: seq<Byte>, payload: seq<Byte>, stored: bool, k: int, t: seq<Byte>) {
    && !Stops(s) && Size(s) % STORED == |payload| && (Size(s) >= STORED) == stored && 4 + |payload| + k <= |s| && k >= 0
    && s[4..4 + |payload|] == payload && s[4 + |payload| + k..] == t
  }

  lemma PieceShape(p: Piece, sums: bool, t: seq<Byte>)
    requires PieceOk(p, sums)
    ensures Shape(PieceBytes(p, sums, t), Payload(p), p.Stored?, |p.sum|, t)
  {
    var n := |Payload(p)|;
    var size := n + if p.Stored? then STORED else 0;
    SizeRead(size);
    StoredSize(n);
    HeadShape(SizeBytes(size), Payload(p), p.sum, t, p.Stored?);
  }

  lemma HeadShape(head: seq<Byte>, payload: seq<Byte>, sum: seq<Byte>, t: seq<Byte>, stored: bool)
    requires |head| == 4 && Size(head) != 0 && Size(head) % STORED == |payload| && (Size(head) >= STORED) == stored
    ensures Shape(head + payload + sum + t, payload, stored, |sum|, t)
  {
    Slices(head, payload, sum, t);
    assert head[..4] == head;
  }

  lemma PieceUnpacks(p: Piece, sums: bool, room: int)
    requires PieceOk(p, sums) && |Content(p)| <= room
    ensures Unpack(Payload(p), p.Stored?, room) == Done(Content(p))
  {
    if p.Packed? { Complete(p.block, [], room); }
  }

  lemma PieceRead(p: Piece, sums: bool, t: seq<Byte>, out: seq<Byte>, cap: int)
    requires PieceOk(p, sums) && |out| + |Content(p)| <= cap
    ensures Blocks(PieceBytes(p, sums, t), out, cap, sums) == Blocks(t, out + Content(p), cap, sums)
  {
    PieceShape(p, sums, t);
    var payload := Payload(p);
    PieceUnpacks(p, sums, cap - |out|);
    BlocksStep(PieceBytes(p, sums, t), |payload|, |p.sum|, out, cap, sums);
  }

  /** Every list of pieces whose contents fit decodes to their concatenation. */
  lemma {:induction false} BlocksComplete(l: Pieces, sums: bool, out: seq<Byte>, cap: int)
    requires PiecesOk(l, sums) && |out| + |Contents(l, sums)| <= cap
    ensures Blocks(EncodePieces(l, sums), out, cap, sums) == Done(out + Contents(l, sums))
    decreases l
  {
    match l
    case Stop(t) => assert out + [] == out;
    case Next(p, r) =>
      PieceRead(p, sums, EncodePieces(r, sums), out, cap);
      BlocksComplete(r, sums, out + Content(p), cap);
      Assoc(out, Content(p), Contents(r, sums));
  }

  lemma PieceWritten(s: seq<Byte>, n: int, p: Piece, sums: bool)
    requires |s| >= 4 && !Stops(s) && n == Size(s) % STORED && PieceOk(p, sums) && 4 + n + |p.sum| <= |s|
    requires p.Stored? == (Size(s) >= STORED) && Payload(p) == s[4..4 + n] && p.sum == s[4 + n..4 + n + |p.sum|]
    ensures s == PieceBytes(p, sums, s[4 + n + |p.sum|..])
  {
    SizeWritten(s);
    SizeSplit(Size(s));
    var size := |Payload(p)| + if p.Stored? then STORED else 0;
    assert size == Size(s);
    assert SizeBytes(size) == s[..4];
    Unsliced(s, 4, 4 + n, 4 + n + |p.sum|);
  }

  /** What unpacks is the payload of a piece. */
  lemma FirstPiece(s: seq<Byte>, n: int, sums: bool, room: int) returns (p: Piece)
    requires !Stops(s) && n == Size(s) % STORED && 4 + n + (if sums then 4 else 0) <= |s| && room >= 0
    requires Unpack(s[4..4 + n], Size(s) >= STORED, room).Done?
    ensures PieceOk(p, sums) && s == PieceBytes(p, sums, s[4 + n + (if sums then 4 else 0)..])
    ensures Unpack(s[4..4 + n], Size(s) >= STORED, room) == Done(Content(p)) && |Content(p)| <= room
  {
    SizeWritten(s);
    SizeSplit(Size(s));
    var k := if sums then 4 else 0;
    var payload, sum := s[4..4 + n], s[4 + n..4 + n + k];
    if Size(s) >= STORED {
      p := Stored(payload, sum);
    } else {
      var b := Sound(payload, [], room);
      p := Packed(b, sum);
    }
    PieceWritten(s, n, p, sums);
  }

  lemma FirstTurn(s: seq<Byte>, out: seq<Byte>, cap: int, sums: bool)
    requires !Stops(s) && Blocks(s, out, cap, sums).Done?
    ensures var n := Size(s) % STORED;
      4 + n + (if sums then 4 else 0) <= |s| && Unpack(s[4..4 + n], Size(s) >= STORED, cap - |out|).Done?
  {
  }

  /** Whatever decodes is the concatenation of the contents of pieces written just like the input. */
  lemma {:induction false} BlocksSound(s: seq<Byte>, out: seq<Byte>, cap: int, sums: bool) returns (l: Pieces)
    requires Blocks(s, out, cap, sums).Done? && |out| <= cap
    ensures PiecesOk(l, sums) && EncodePieces(l, sums) == s
    ensures Blocks(s, out, cap, sums).out == out + Contents(l, sums) && |out + Contents(l, sums)| <= cap
    decreases |s|
  {
    if Stops(s) {
      l := Stop(s);
      assert out + [] == out;
    } else {
      var n, k := Size(s) % STORED, if sums then 4 else 0;
      FirstTurn(s, out, cap, sums);
      var p := FirstPiece(s, n, sums, cap - |out|);
      BlocksStep(s, n, k, out, cap, sums);
      var r := BlocksSound(s[4 + n + k..], out + Content(p), cap, sums);
      l := Next(p, r);
      Assoc(out, Content(p), Contents(r, sums));
    }
  }

  datatype Header = Bad(code: int) | Good(pos: int, sums: bool)

  function ReadHeader(src: seq<Byte>): Header {
    if |src| < 7 then Bad(-10)
    else if Size(src) != MAGIC then Bad(-11)
    else
      var flags := src[4];
      if flags / 64 != 1 then Bad(-12)
      else
        var sized, dictionary := flags / 8 % 2 == 1, flags % 2 == 1;
        var p1 := if sized then 6 + 8 else 6;
        if p1 > |src| then Bad(-13)
        else
          var p2 := if dictionary then p1 + 4 else p1;
          if p2 > |src| then Bad(-14)
          else if p2 + 1 > |src| then Bad(-15)
          else Good(p2 + 1, flags / 16 % 2 == 1)
  }

  /**
   The header of a frame as it is written: the magic number, the flags, a byte nobody reads, perhaps eight bytes of
   content size and four of a dictionary, and a checksum nobody reads.
   */
  datatype Head = Head(linked: bool, sums: bool, size: Option<seq<Byte>>, total: bool, spare: bool, dictionary: Option<seq<Byte>>,
                       bd: Byte, check: Byte)

  predicate HeadOk(h: Head) {
    (h.size.Some? ==> |h.size.value| == 8) && (h.dictionary.Some? ==> |h.dictionary.value| == 4)
  }

  function Bit(b: bool): (n: int)
    ensures 0 <= n <= 1
  {
    if b then 1 else 0
  }

  /** Version 1 in the upper two bits, then six flags. */
  function Flags(linked: bool, sums: bool, sized: bool, total: bool, spare: bool, dictionary: bool): Byte {
    64 + 32 * Bit(linked) + 16 * Bit(sums) + 8 * Bit(sized) + 4 * Bit(total) + 2 * Bit(spare) + Bit(dictionary)
  }

  function FlagByte(h: Head): Byte { Flags(h.linked, h.sums, h.size.Some?, h.total, h.spare, h.dictionary.Some?) }

  function Field(f: Option<seq<Byte>>): seq<Byte> { if f.Some? then f.value else [] }

  function EncodeHead(h: Head): seq<Byte> {
    [0x04, 0x22, 0x4D, 0x18, FlagByte(h), h.bd] + Field(h.size) + Field(h.dictionary) + [h.check]
  }

  lemma MagicIff(src: seq<Byte>)
    requires |src| >= 4
    ensures Size(src) == MAGIC <==> src[0] == 0x04 && src[1] == 0x22 && src[2] == 0x4D && src[3] == 0x18
  {
    FourIs(src, src[0], src[1], src[2], src[3]);
  }

  lemma FlagParts(h: Head)
    ensures var f := FlagByte(h);
            f / 64 == 1 && (f / 16 % 2 == 1 <==> h.sums) && (f / 8 % 2 == 1 <==> h.size.Some?) && (f % 2 == 1 <==> h.dictionary.Some?)
  {
  }

  /** Reading undoes writing: every header is read up to its last byte, with its flag for checksums. */
  lemma HeadRead(h: Head, rest: seq<Byte>)
    requires HeadOk(h)
    ensures ReadHeader(EncodeHead(h) + rest) == Good(|EncodeHead(h)|, h.sums)
  {
    var src := EncodeHead(h) + rest;
    MagicIff(src);
    FlagParts(h);
    assert src[4] == FlagByte(h);
  }

  lemma FlagBits(f: int)
    requires 0 <= f < 256 && f / 64 == 1
    ensures f == 64 + 32 * (f / 32 % 2) + 16 * (f / 16 % 2) + 8 * (f / 8 % 2) + 4 * (f / 4 % 2) + 2 * (f / 2 % 2) + f % 2
  {
    LowBit(f);
    LowBit(f / 2);
    LowBit(f / 4);
    LowBit(f / 8);
    LowBit(f / 16);
    LowBit(f / 32);
  }

  lemma LowBit(f: int)
    requires f >= 0
    ensures f == 2 * (f / 2) + f % 2 && f / 2 / 2 == f / 4 && f / 4 / 2 == f / 8 && f / 8 / 2 == f / 16 && f / 16 / 2 == f / 32 && f / 32 / 2 == f / 64
  {
  }

  function HeadOf(src: seq<Byte>, p1: int, p2: int): Head
    requires 14 <= |src| || p1 == 6
    requires 6 <= p1 <= p2 < |src|
  {
    var f := src[4];
    Head(f / 32 % 2 == 1, f / 16 % 2 == 1, if p1 == 6 then None else Some(src[6..p1]), f / 4 % 2 == 1, f / 2 % 2 == 1,
         if p2 == p1 then None else Some(src[p1..p2]), src[5], src[p2])
  }

  lemma FlagsBack(f: int)
    requires 0 <= f < 256 && f / 64 == 1
    ensures Flags(f / 32 % 2 == 1, f / 16 % 2 == 1, f / 8 % 2 == 1, f / 4 % 2 == 1, f / 2 % 2 == 1, f % 2 == 1) == f
  {
    FlagBits(f);
    BitIs(f);
    BitIs(f / 2);
    BitIs(f / 4);
    BitIs(f / 8);
    BitIs(f / 16);
    BitIs(f / 32);
  }

  lemma HeadFlags(src: seq<Byte>, p1: int, p2: int)
    requires |src| >= 7 && src[4] / 64 == 1 && 6 <= p1 <= p2 < |src|
    requires p1 == (if src[4] / 8 % 2 == 1 then 14 else 6) && p2 == if src[4] % 2 == 1 then p1 + 4 else p1
    ensures HeadOk(HeadOf(src, p1, p2)) && FlagByte(HeadOf(src, p1, p2)) == src[4]
  {
    FlagsBack(src[4]);
  }

  lemma BitIs(x: int)
    ensures Bit(x % 2 == 1) == x % 2
  {
  }

  /** And whatever is read as a header is one, written just so. */
  lemma HeadWritten(src: seq<Byte>) returns (h: Head)
    requires ReadHeader(src).Good?
    ensures var r := ReadHeader(src); 0 <= r.pos <= |src| && HeadOk(h) && EncodeHead(h) == src[..r.pos] && h.sums == r.sums
  {
    MagicIff(src);
    var p1 := if src[4] / 8 % 2 == 1 then 14 else 6;
    var p2 := if src[4] % 2 == 1 then p1 + 4 else p1;
    h := HeadOf(src, p1, p2);
    HeadFlags(src, p1, p2);
    HeadSplit(src, p1, p2);
    assert Field(h.size) == src[6..p1] && Field(h.dictionary) == src[p1..p2];
  }

  lemma HeadSplit(src: seq<Byte>, p1: int, p2: int)
    requires 6 <= p1 <= p2 < |src|
    ensures src[..p2 + 1] == [src[0], src[1], src[2], src[3], src[4], src[5]] + src[6..p1] + src[p1..p2] + [src[p2]]
  {
  }

  /** Which header is refused, and how: what is wrong first decides. */
  lemma HeadRefused(src: seq<Byte>)
    ensures ReadHeader(src) == Bad(-10) <==> |src| < 7
    ensures ReadHeader(src) == Bad(-11) <==> |src| >= 7 && src[..4] != [0x04, 0x22, 0x4D, 0x18]
    ensures |src| >= 7 && src[..4] == [0x04, 0x22, 0x4D, 0x18] ==>
              var (f, r) := (src[4], ReadHeader(src));
              && (r == Bad(-12) <==> f / 64 != 1)
              && (r == Bad(-13) <==> f / 64 == 1 && f / 8 % 2 == 1 && |src| < 14)
              && (r == Bad(-14) <==> f / 64 == 1 && f % 2 == 1 && if f / 8 % 2 == 1 then 14 <= |src| < 18 else |src| < 10)
              && (r == Bad(-15) <==> f / 64 == 1 && (f / 8 % 2 == 1 || f % 2 == 1) && |src| == 6 + 8 * (f / 8 % 2) + 4 * (f % 2))
  {
    if |src| >= 7 {
      MagicIff(src);
      assert src[..4] == [src[0], src[1], src[2], src[3]];
    }
  }

  function Decompress(src: seq<Byte>, cap: int): Result {
    match ReadHeader(src)
    case Bad(code) => Fail(code)
    case Good(pos, sums) => if pos <= |src| then Blocks(src[pos..], [], cap, sums) else Fail(-15)
  }

  /** A frame is a header and pieces, and stands for the contents of the pieces. */
  ghost predicate FrameOf(src: seq<Byte>, h: Head, l: Pieces, e: seq<Byte>) {
    HeadOk(h) && PiecesOk(l, h.sums) && src == EncodeHead(h) + EncodePieces(l, h.sums) && Contents(l, h.sums) == e
  }

  lemma PiecesSound(t: seq<Byte>, cap: int, sums: bool) returns (l: Pieces)
    requires cap >= 0 && Blocks(t, [], cap, sums).Done?
    ensures var out := Blocks(t, [], cap, sums).out; PiecesOk(l, sums) && EncodePieces(l, sums) == t && Contents(l, sums) == out && |out| <= cap
  {
    l := BlocksSound(t, [], cap, sums);
    assert [] + Contents(l, sums) == Contents(l, sums);
  }

  lemma FrameJoined(src: seq<Byte>, pos: int, h: Head, l: Pieces, e: seq<Byte>)
    requires 0 <= pos <= |src| && HeadOk(h) && PiecesOk(l, h.sums) && Contents(l, h.sums) == e
    requires src[..pos] == EncodeHead(h) && src[pos..] == EncodePieces(l, h.sums)
    ensures FrameOf(src, h, l, e)
  {
    assert src == src[..pos] + src[pos..];
  }

  lemma FrameSound(src: seq<Byte>, cap: int) returns (h: Head, l: Pieces)
    requires cap >= 0 && Decompress(src, cap).Done?
    ensures FrameOf(src, h, l, Decompress(src, cap).out) && |Decompress(src, cap).out| <= cap
  {
    var r := ReadHeader(src);
    h := HeadWritten(src);
    l := PiecesSound(src[r.pos..], cap, h.sums);
    FrameJoined(src, r.pos, h, l, Decompress(src, cap).out);
  }

  lemma FrameComplete(src: seq<Byte>, cap: int, h: Head, l: Pieces, e: seq<Byte>)
    requires FrameOf(src, h, l, e) && |e| <= cap
    ensures Decompress(src, cap) == Done(e)
  {
    HeadRead(h, EncodePieces(l, h.sums));
    assert src[|EncodeHead(h)|..] == EncodePieces(l, h.sums);
    BlocksComplete(l, h.sums, [], cap);
    assert [] + e == e;
  }

  /** A frame stands for something exactly when it is a header and pieces that, each on its own, expand to what fits. */
  lemma FrameMeansIff(src: seq<Byte>, cap: int, e: seq<Byte>)
    requires cap >= 0
    ensures Decompress(src, cap) == Done(e) <==> exists h, l :: FrameOf(src, h, l, e) && |e| <= cap
  {
    if Decompress(src, cap) == Done(e) { var h, l := FrameSound(src, cap); }
    if h, l :| FrameOf(src, h, l, e) && |e| <= cap { FrameComplete(src, cap, h, l, e); }
  }

  // ---- Frames with sums of 32 bits -----------------------------------------------------------

  /** What the code does: it returns, or one of its tests lets through what it should have stopped. In that case it goes
      on outside its input or its output, and nothing is said about the rest. */
  datatype Answer = Returns(result: Result) | Unguarded

  function Blocks32(src: seq<Byte>, pos: int, out: seq<Byte>, cap: int, sums: bool): Answer
    requires 0 <= pos <= |src|
    decreases |src| - pos, 1
  {
    if Wrap(pos + 4) > |src| then Returns(Done(out))
    else if pos + 4 > |src| then Unguarded
    else if Size(src[pos..]) == 0 then Returns(Done(out))
    else Block32(src, pos + 4, Size(src[pos..]) >= STORED, Size(src[pos..]) % STORED, out, cap, sums)
  }

  /** One piece of n bytes and what follows it. */
  function Block32(src: seq<Byte>, at: int, stored: bool, n: int, out: seq<Byte>, cap: int, sums: bool): Answer
    requires 4 <= at <= |src| && n >= 0
    decreases |src| - at + 4, 0
  {
    if Wrap(at + n) > |src| then Returns(Fail(-16))
    else if stored && Wrap(|out| + n) > cap then Returns(Fail(-17))
    else if at + n > |src| || (stored && |out| + n > cap) then Unguarded
    else
      var r := if stored then Done(src[at..at + n]) else Decode32(src[at..at + n], [], cap - |out|);
      if r.Fail? then Returns(r)
      else if !sums then Blocks32(src, at + n, out + r.out, cap, sums)
      else if Wrap(at + n + 4) > |src| then Returns(Fail(-18))
      else if at + n + 4 > |src| then Unguarded
      else Blocks32(src, at + n + 4, out + r.out, cap, sums)
  }

  function Decompress32(src: seq<Byte>, cap: int): Answer {
    match ReadHeader(src)
    case Bad(code) => Returns(Fail(code))
    case Good(pos, sums) => if 0 <= pos <= |src| then Blocks32(src, pos, [], cap, sums) else Returns(Fail(-15))
  }

  /** Every sum the code makes, up to the end or the first error, is one it can hold: positions and sizes of pieces,
      stored bytes behind the output, and the lengths in blocks. */
  ghost predicate SumsFit(src: seq<Byte>, pos: int, out: seq<Byte>, cap: int, sums: bool)
    requires 0 <= pos <= |src|
    decreases |src| - pos, 1
  {
    pos + 4 < TOP && (pos + 4 > |src| || Size(src[pos..]) == 0
                      || BlockFits(src, pos + 4, Size(src[pos..]) >= STORED, Size(src[pos..]) % STORED, out, cap, sums))
  }

  ghost predicate BlockFits(src: seq<Byte>, at: int, stored: bool, n: int, out: seq<Byte>, cap: int, sums: bool)
    requires 4 <= at <= |src| && n >= 0
    decreases |src| - at + 4, 0
  {
    at + n < TOP && (at + n > |src| || (
      && (if stored then |out| + n < TOP else LengthsFit(src[at..at + n], [], cap - |out|))
      && var r := Unpack(src[at..at + n], stored, cap - |out|);
         r.Fail? || (if !sums then SumsFit(src, at + n, out + r.out, cap, sums)
                     else at + n + 4 < TOP && (at + n + 4 > |src| || SumsFit(src, at + n + 4, out + r.out, cap, sums)))))
  }

  ghost predicate FrameFits(src: seq<Byte>, cap: int) {
    var h := ReadHeader(src);
    h.Good? && 0 <= h.pos <= |src| ==> SumsFit(src, h.pos, [], cap, h.sums)
  }

  /** Where all sums fit, the code decodes the frame as the format means. */
  lemma {:induction false} SumsAgree(src: seq<Byte>, pos: int, out: seq<Byte>, cap: int, sums: bool)
    requires |src| < TOP && 0 <= pos <= |src| && SumsFit(src, pos, out, cap, sums)
    ensures Blocks32(src, pos, out, cap, sums) == Returns(Blocks(src[pos..], out, cap, sums))
    decreases |src| - pos, 1
  {
    WrapIff(pos + 4);
    if pos + 4 <= |src| && Size(src[pos..]) != 0 { BlockAgrees(src, pos, out, cap, sums); }
  }

  lemma {:induction false} BlockAgrees(src: seq<Byte>, pos: int, out: seq<Byte>, cap: int, sums: bool)
    requires |src| < TOP && 0 <= pos && pos + 4 <= |src| && !Stops(src[pos..])
    requires BlockFits(src, pos + 4, Size(src[pos..]) >= STORED, Size(src[pos..]) % STORED, out, cap, sums)
    ensures Block32(src, pos + 4, Size(src[pos..]) >= STORED, Size(src[pos..]) % STORED, out, cap, sums) == Returns(Blocks(src[pos..], out, cap, sums))
    decreases |src| - pos, 0
  {
    var at, stored, n := pos + 4, Size(src[pos..]) >= STORED, Size(src[pos..]) % STORED;
    WrapIff(at + n);
    if at + n <= |src| {
      BlocksTurn(src, pos, n, out, cap, sums);
      PieceTaken(src, at, stored, n, out, cap, sums);
      var r := Unpack(src[at..at + n], stored, cap - |out|);
      if r.Done? {
        if !sums {
          SumsAgree(src, at + n, out + r.out, cap, sums);
        } else {
          WrapIff(at + n + 4);
          if at + n + 4 <= |src| { SumsAgree(src, at + n + 4, out + r.out, cap, sums); }
        }
      }
    }
  }

  lemma UnpackBound(payload: seq<Byte>, stored: bool, room: int)
    requires room >= 0 && Unpack(payload, stored, room).Done?
    ensures |Unpack(payload, stored, room).out| <= room
  {
    if !stored { var b := Sound(payload, [], room); }
  }

  /** Where some sum does not fit, the code does not succeed on a frame that stands for something. */
  lemma {:induction false} SumsUnfit(src: seq<Byte>, pos: int, out: seq<Byte>, cap: int, sums: bool)
    requires |src| < TOP && 0 <= pos <= |src| && |out| <= cap < TOP && !SumsFit(src, pos, out, cap, sums)
    ensures var a := Blocks32(src, pos, out, cap, sums); a.Returns? && a.result.Done? ==> Blocks(src[pos..], out, cap, sums).Fail?
    decreases |src| - pos, 2
  {
    WrapIff(pos + 4);
    if pos + 4 < TOP { BlockUnfit(src, pos, out, cap, sums); }
  }

  lemma {:induction false} BlockUnfit(src: seq<Byte>, pos: int, out: seq<Byte>, cap: int, sums: bool)
    requires |src| < TOP && 0 <= pos && pos + 4 <= |src| && |out| <= cap < TOP && !Stops(src[pos..])
    requires !BlockFits(src, pos + 4, Size(src[pos..]) >= STORED, Size(src[pos..]) % STORED, out, cap, sums)
    ensures var a := Block32(src, pos + 4, Size(src[pos..]) >= STORED, Size(src[pos..]) % STORED, out, cap, sums);
            a.Returns? && a.result.Done? ==> Blocks(src[pos..], out, cap, sums).Fail?
    decreases |src| - pos, 1
  {
    var at, stored, n := pos + 4, Size(src[pos..]) >= STORED, Size(src[pos..]) % STORED;
    WrapIff(at + n);
    if at + n < TOP {
      BlocksTurn(src, pos, n, out, cap, sums);
      WrapIff(|out| + n);
      if !stored && !LengthsFit(src[at..at + n], [], cap - |out|) {
        UnfitFails(src[at..at + n], [], cap - |out|);
      } else if !stored || |out| + n < TOP {
        RestUnfit(src, at, stored, n, out, cap, sums);
      }
    }
  }

  // A piece that fits is taken as the format means.
  lemma PieceTaken(src: seq<Byte>, at: int, stored: bool, n: int, out: seq<Byte>, cap: int, sums: bool)
    requires |src| < TOP && 4 <= at && 0 <= n && at + n <= |src|
    requires if stored then |out| + n < TOP else LengthsFit(src[at..at + n], [], cap - |out|)
    ensures var r := Unpack(src[at..at + n], stored, cap - |out|);
            Block32(src, at, stored, n, out, cap, sums) ==
              if r.Fail? then Returns(r)
              else if !sums then Blocks32(src, at + n, out + r.out, cap, sums)
              else if Wrap(at + n + 4) > |src| then Returns(Fail(-18))
              else if at + n + 4 > |src| then Unguarded
              else Blocks32(src, at + n + 4, out + r.out, cap, sums)
  {
    WrapIff(at + n);
    if stored { WrapIff(|out| + n); } else { FitsAgrees(src[at..at + n], [], cap - |out|); }
  }

  // A piece that fits, before a sum that does not.
  lemma {:induction false} RestUnfit(src: seq<Byte>, at: int, stored: bool, n: int, out: seq<Byte>, cap: int, sums: bool)
    requires |src| < TOP && 4 <= at && 0 <= n && at + n <= |src| && |out| <= cap < TOP && !BlockFits(src, at, stored, n, out, cap, sums)
    requires if stored then |out| + n < TOP else LengthsFit(src[at..at + n], [], cap - |out|)
    ensures var a := Block32(src, at, stored, n, out, cap, sums);
            var r := Unpack(src[at..at + n], stored, cap - |out|);
            var next := at + n + if sums then 4 else 0;
            r.Done? && (a.Returns? && a.result.Done? ==> next <= |src| && Blocks(src[next..], out + r.out, cap, sums).Fail?)
    decreases |src| - at + 4, 0
  {
    PieceTaken(src, at, stored, n, out, cap, sums);
    var r := Unpack(src[at..at + n], stored, cap - |out|);
    assert r.Done?;
    UnpackBound(src[at..at + n], stored, cap - |out|);
    if !sums {
      SumsUnfit(src, at + n, out + r.out, cap, sums);
    } else {
      WrapIff(at + n + 4);
      if at + n + 4 <= |src| { SumsUnfit(src, at + n + 4, out + r.out, cap, sums); }
    }
  }

  /** Where all sums fit, the code succeeds exactly on the frames that stand for something that fits, with just that.
      Where some sum does not fit, it never succeeds on such a frame, and when it succeeds the frame is none. */
  lemma FrameIff(src: seq<Byte>, cap: int, e: seq<Byte>)
    requires |src| < TOP && 0 <= cap < TOP
    ensures FrameFits(src, cap) ==> (Decompress32(src, cap) == Returns(Done(e)) <==> exists h, l :: FrameOf(src, h, l, e) && |e| <= cap)
    ensures Decompress32(src, cap) == Returns(Done(e)) ==> (FrameFits(src, cap) <==> exists h, l :: FrameOf(src, h, l, e) && |e| <= cap)
    ensures (exists h, l :: FrameOf(src, h, l, e) && |e| <= cap) ==> (FrameFits(src, cap) <==> Decompress32(src, cap) == Returns(Done(e)))
  {
    FrameMeansIff(src, cap, e);
    var h := ReadHeader(src);
    if h.Good? && 0 <= h.pos <= |src| {
      if FrameFits(src, cap) { SumsAgree(src, h.pos, [], cap, h.sums); } else { SumsUnfit(src, h.pos, [], cap, h.sums); }
    }
  }

  /** A frame of eleven bytes whose size field is let through: the format refuses it with -16. */
  lemma FrameWraps(cap: int)
    requires 0 <= cap < TOP
    ensures var src := [0x04, 0x22, 0x4D, 0x18, 0x40, 0, 0, 0xFF, 0xFF, 0xFF, 0x7F];
            Decompress32(src, cap) == Unguarded && Decompress(src, cap) == Fail(-16) && !FrameFits(src, cap)
  {
    var src: seq<Byte> := [0x04, 0x22, 0x4D, 0x18, 0x40, 0, 0, 0xFF, 0xFF, 0xFF, 0x7F];
    FourIs(src, 0x04, 0x22, 0x4D, 0x18);
    assert src[7..] == [0xFF, 0xFF, 0xFF, 0x7F];
    FourIs(src[7..], 0xFF, 0xFF, 0xFF, 0x7F);
    assert ReadHeader(src) == Good(7, false);
    WrapIff(11);
    WrapIff(11 + 0x7FFF_FFFF);
    assert Block32(src, 11, false, 0x7FFF_FFFF, [], cap, false) == Unguarded;
  }

  lemma LittleCons(b: Byte, t: seq<Byte>)
    ensures Little([b] + t) == b + 0x100 * Little(t)
  {
    assert ([b] + t)[1..] == t;
  }

  lemma FourIs(s: seq<Byte>, a: Byte, b: Byte, c: Byte, d: Byte)
    requires |s| >= 4 && s[0] == a && s[1] == b && s[2] == c && s[3] == d
    ensures Size(s) == a + 0x100 * (b + 0x100 * (c + 0x100 * d))
  {
    var none: seq<Byte> := [];
    assert s[..4] == [a] + ([b] + ([c] + ([d] + none)));
    LittleCons(d, none);
    LittleCons(c, [d] + none);
    LittleCons(b, [c] + ([d] + none));
    LittleCons(a, [b] + ([c] + ([d] + none)));
  }

  // ---- The frame decoder as code -------------------------------------------------------------

  method TakeHeader(src: seq<Byte>) returns (code: int, pos: int, sums: bool)
    ensures match ReadHeader(src) {
              case Bad(c) => code == c < 0
              case Good(p, b) => code == 0 && pos == p && sums == b && 0 <= pos <= |src|
            }
  {
    code, pos, sums := 0, 4, false;
    if |src| < 7 { return -10, 0, false; }
    if Size(src) != MAGIC { return -11, 0, false; }
    var flags := src[pos];
    pos := pos + 2;
    if flags / 64 != 1 { return -12, 0, false; }
    sums := flags / 16 % 2 == 1;
    if flags / 8 % 2 == 1 {
      if pos + 8 > |src| { return -13, 0, false; }
      pos := pos + 8;
    }
    if flags % 2 == 1 {
      if pos + 4 > |src| { return -14, 0, false; }
      pos := pos + 4;
    }
    if pos + 1 > |src| { return -15, 0, false; }
    pos := pos + 1;
  }

  /** One piece that is inside input and output is unpacked behind what is there. */
  method TakePiece(payload: seq<Byte>, stored: bool, dst: array<Byte>, at: int) returns (n: int)
    requires 0 <= at <= dst.Length && (stored ==> at + |payload| <= dst.Length)
    modifies dst
    ensures match if stored then Done(payload) else Decode32(payload, [], dst.Length - at) {
              case Fail(c) => n == c < 0
              case Done(out) => n == |out| && at + n <= dst.Length && dst[..at + n] == old(dst[..at]) + out
            }
  {
    if stored {
      PutLiterals(dst, 0, at, payload, 0, |payload|);
      n := |payload|;
      assert dst[0..at + n] == dst[..at + n] && payload[0..n] == payload;
    } else {
      n := DecompressBlock(payload, dst, at, dst.Length - at);
      if n >= 0 { assert dst[..at + n] == dst[..at] + dst[at..at + n]; }
    }
  }

  /** One turn of the frame's loop behind its size: the tests, a piece and its checksum. */
  method TakeBlock(src: seq<Byte>, start: int, stored: bool, len: int, dst: array<Byte>, at: int, sums: bool)
    returns (code: int, pos: int, n: int, guarded: bool)
    requires 4 <= start <= |src| && 0 <= at <= dst.Length && len >= 0
    modifies dst
    ensures !guarded ==> Block32(src, start, stored, len, old(dst[..at]), dst.Length, sums) == Unguarded
    ensures guarded && code < 0 ==> Block32(src, start, stored, len, old(dst[..at]), dst.Length, sums) == Returns(Fail(code))
    ensures guarded && code >= 0 ==> start <= pos <= |src| && at <= n <= dst.Length
    ensures guarded && code >= 0 ==>
              Block32(src, start, stored, len, old(dst[..at]), dst.Length, sums) == Blocks32(src, pos, dst[..n], dst.Length, sums)
  {
    pos := start;
    if Wrap(pos + len) > |src| { return -16, 0, 0, true; }
    if stored && Wrap(at + len) > dst.Length { return -17, 0, 0, true; }
    if pos + len > |src| || (stored && at + len > dst.Length) { return 0, 0, 0, false; }
    var got := TakePiece(src[pos..pos + len], stored, dst, at);
    if got < 0 { return got, 0, 0, true; }
    pos := pos + len;
    if sums {
      if Wrap(pos + 4) > |src| { return -18, 0, 0, true; }
      if pos + 4 > |src| { return 0, 0, 0, false; }
      pos := pos + 4;
    }
    code, n, guarded := 0, at + got, true;
  }

  // One turn of the grammar's loop, at a position of the input.
  lemma BlocksTurn(src: seq<Byte>, start: int, len: int, out: seq<Byte>, cap: int, sums: bool)
    requires 0 <= start && start + 4 + len <= |src| && 0 <= len == Size(src[start..]) % STORED && !Stops(src[start..])
    ensures var r := Unpack(src[start + 4..start + 4 + len], Size(src[start..]) >= STORED, cap - |out|);
            var next := start + 4 + len + if sums then 4 else 0;
            Blocks(src[start..], out, cap, sums) ==
              if r.Fail? then r else if next > |src| then Fail(-18) else Blocks(src[next..], out + r.out, cap, sums)
  {
    var s := src[start..];
    assert s[4..4 + len] == src[start + 4..start + 4 + len];
    assert s[4 + len..] == src[start + 4 + len..];
    if 4 + len + 4 <= |s| { assert s[4 + len + 4..] == src[start + 4 + len + 4..]; }
  }

  /** The frame decoder: its code and the bytes it writes, or the news that a test has let something through. */
  method DecompressFrame(src: seq<Byte>, dst: array<Byte>) returns (n: int, guarded: bool)
    modifies dst
    ensures match Decompress32(src, dst.Length) {
              case Returns(r) => guarded && Agrees(r, n, dst, 0)
              case Unguarded => !guarded
            }
  {
    var code, pos, sums := TakeHeader(src);
    if code < 0 { return code, true; }
    n := 0;
    ghost var all := Decompress32(src, dst.Length);
    assert dst[..0] == [];
    while Wrap(pos + 4) <= |src|
      invariant 0 <= pos <= |src| && 0 <= n <= dst.Length && all == Blocks32(src, pos, dst[..n], dst.Length, sums)
      decreases |src| - pos
    {
      if pos + 4 > |src| { return 0, false; }
      var size := Size(src[pos..]);
      SizeWritten(src[pos..]);
      SizeSplit(size);
      if size == 0 { break; }
      code, pos, n, guarded := TakeBlock(src, pos + 4, size >= STORED, size % STORED, dst, n, sums);
      if !guarded { return 0, false; }
      if code < 0 { return code, true; }
    }
    guarded := true;
    assert all == Returns(Done(dst[..n]));
    assert dst[0..n] == dst[..n];
  }
}
