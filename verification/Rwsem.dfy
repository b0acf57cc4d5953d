/**
 The reader/writer semaphore of an address space (mem/vmm.c). Threads run its lock sections in any order; a wait may
 end at any time. Every thread is well bracketed: it releases what it holds and waits only in a turn it began.
 */
module Rwsem {

  /** What a thread is about: `Read` and `Write` hold the semaphore, the `Wait` states are registered as waiting. */
  datatype Role = Idle | WantRead | WantWrite | WaitRead | WaitWrite | Read | Write

  datatype State = State(count: int, waitReaders: int, waitWriters: int, threads: seq<Role>)

  /** The lock sections. */
  datatype Action = DownRead | WakeRead | UpRead | DownWrite | WakeWrite | UpWrite

  function Num(threads: seq<Role>, r: Role): int {
    if threads == [] then 0 else Num(threads[1..], r) + if threads[0] == r then 1 else 0
  }

  lemma {:induction false} NumUpdate(threads: seq<Role>, t: int, x: Role, r: Role)
    requires 0 <= t < |threads|
    ensures Num(threads[t := x], r) == Num(threads, r) + (if x == r then 1 else 0) - (if threads[t] == r then 1 else 0)
    decreases |threads|
  {
    if t > 0 {
      NumUpdate(threads[1..], t - 1, x, r);
      assert threads[t := x][1..] == threads[1..][t - 1 := x];
    } else {
      assert threads[t := x][1..] == threads[1..];
    }
  }

  lemma {:induction false} NumPositive(threads: seq<Role>, r: Role)
    ensures Num(threads, r) >= 0
    ensures forall t :: 0 <= t < |threads| && threads[t] == r ==> Num(threads, r) >= 1
    decreases |threads|
  {
    if threads != [] {
      NumPositive(threads[1..], r);
      forall t | 0 <= t < |threads| && threads[t] == r ensures Num(threads, r) >= 1 {
        if t > 0 { assert threads[1..][t - 1] == r; }
      }
    }
  }

  /** The action a thread in some role may take. */
  predicate Bracketed(r: Role, a: Action) {
    match a
    case DownRead => r == Idle || r == WantRead
    case WakeRead => r == WaitRead
    case UpRead => r == Read
    case DownWrite => r == Idle || r == WantWrite
    case WakeWrite => r == WaitWrite
    case UpWrite => r == Write
  }

  function Step(s: State, t: int, a: Action): State
    requires 0 <= t < |s.threads|
  {
    match a
    case DownRead =>
      if s.count >= 0 && s.waitWriters == 0 then s.(count := s.count + 1, threads := s.threads[t := Read])
      else s.(waitReaders := s.waitReaders + 1, threads := s.threads[t := WaitRead])
    case WakeRead => s.(waitReaders := s.waitReaders - 1, threads := s.threads[t := WantRead])
    case UpRead => s.(count := if s.count > 0 then s.count - 1 else s.count, threads := s.threads[t := Idle])
    case DownWrite =>
      if s.count == 0 then s.(count := -1, threads := s.threads[t := Write])
      else s.(waitWriters := s.waitWriters + 1, threads := s.threads[t := WaitWrite])
    case WakeWrite => s.(waitWriters := s.waitWriters - 1, threads := s.threads[t := WantWrite])
    case UpWrite => s.(count := 0, threads := s.threads[t := Idle])
  }

  /** The counters say what the threads do. */
  ghost predicate Inv(s: State) {
    && s.waitReaders == Num(s.threads, WaitRead) && s.waitWriters == Num(s.threads, WaitWrite)
    && (if s.count == -1 then Num(s.threads, Write) == 1 && Num(s.threads, Read) == 0
        else Num(s.threads, Write) == 0 && Num(s.threads, Read) == s.count)
  }

  lemma StepKeeps(s: State, t: int, a: Action)
    requires Inv(s) && 0 <= t < |s.threads| && Bracketed(s.threads[t], a)
    ensures Inv(Step(s, t, a))
  {
    var x := Step(s, t, a).threads[t];
    NumUpdate(s.threads, t, x, Read);
    NumUpdate(s.threads, t, x, Write);
    NumUpdate(s.threads, t, x, WaitRead);
    NumUpdate(s.threads, t, x, WaitWrite);
    NumPositive(s.threads, Read);
    NumPositive(s.threads, Write);
    assert Step(s, t, a).threads == s.threads[t := x];
  }

  /** A step admits a reader only while no writer holds or waits, and a writer only while nobody holds. */
  lemma Admission(s: State, t: int, a: Action)
    requires Inv(s) && 0 <= t < |s.threads| && Bracketed(s.threads[t], a)
    ensures Step(s, t, a).threads[t] == Read ==> Num(s.threads, Write) == 0 && Num(s.threads, WaitWrite) == 0
    ensures Step(s, t, a).threads[t] == Write ==> Num(s.threads, Write) == 0 && Num(s.threads, Read) == 0
    ensures a == DownRead && Num(s.threads, Write) == 0 && Num(s.threads, WaitWrite) == 0 ==> Step(s, t, a).threads[t] == Read
    ensures a == DownWrite && Num(s.threads, Write) == 0 && Num(s.threads, Read) == 0 ==> Step(s, t, a).threads[t] == Write
  {
    NumPositive(s.threads, Read);
    NumPositive(s.threads, Write);
    NumPositive(s.threads, WaitWrite);
  }

  /** A thread that is not admitted is registered as waiting, a wait that ends leads to another attempt, a release to
      nothing; no step changes what another thread is about. */
  lemma Roles(s: State, t: int, a: Action, u: int)
    requires Inv(s) && 0 <= t < |s.threads| && 0 <= u < |s.threads| && Bracketed(s.threads[t], a)
    ensures var s' := Step(s, t, a);
            && |s'.threads| == |s.threads| && (u != t ==> s'.threads[u] == s.threads[u])
            && (a == DownRead ==> s'.threads[t] == Read || s'.threads[t] == WaitRead)
            && (a == DownWrite ==> s'.threads[t] == Write || s'.threads[t] == WaitWrite)
            && (a == WakeRead ==> s'.threads[t] == WantRead) && (a == WakeWrite ==> s'.threads[t] == WantWrite)
            && (a == UpRead || a == UpWrite ==> s'.threads[t] == Idle)
  {
  }

  ghost predicate ValidRun(s: State, run: seq<(int, Action)>)
    decreases |run|
  {
    run == []
    || (0 <= run[0].0 < |s.threads| && Bracketed(s.threads[run[0].0], run[0].1) && ValidRun(Step(s, run[0].0, run[0].1), run[1..]))
  }

  ghost function Run(s: State, run: seq<(int, Action)>): State
    requires ValidRun(s, run)
    decreases |run|
  {
    if run == [] then s else Run(Step(s, run[0].0, run[0].1), run[1..])
  }

  /** After any interleaving the counters are exact. */
  lemma {:induction false} RunKeeps(s: State, run: seq<(int, Action)>)
    requires Inv(s) && ValidRun(s, run)
    ensures Inv(Run(s, run))
    decreases |run|
  {
    if run != [] {
      StepKeeps(s, run[0].0, run[0].1);
      RunKeeps(Step(s, run[0].0, run[0].1), run[1..]);
    }
  }

  lemma {:induction false} AllIdle(threads: seq<Role>, r: Role)
    requires r != Idle && forall t :: 0 <= t < |threads| ==> threads[t] == Idle
    ensures Num(threads, r) == 0
    decreases |threads|
  {
    if threads != [] { AllIdle(threads[1..], r); }
  }

  /** From the start, after any interleaving, a writer is alone. */
  lemma WriterAlone(threads: seq<Role>, run: seq<(int, Action)>, t: int, u: int)
    requires forall i :: 0 <= i < |threads| ==> threads[i] == Idle
    requires ValidRun(State(0, 0, 0, threads), run)
    requires var s := Run(State(0, 0, 0, threads), run); 0 <= t < |s.threads| && 0 <= u < |s.threads| && t != u && s.threads[t] == Write
    ensures var s := Run(State(0, 0, 0, threads), run); s.threads[u] != Write && s.threads[u] != Read && s.count == -1
  {
    var s0 := State(0, 0, 0, threads);
    AllIdle(threads, Read);
    AllIdle(threads, Write);
    AllIdle(threads, WaitRead);
    AllIdle(threads, WaitWrite);
    RunKeeps(s0, run);
    var s := Run(s0, run);
    NumPositive(s.threads, Write);
    NumPositive(s.threads, Read);
    NumUpdate(s.threads, t, Idle, Write);
    NumPositive(s.threads[t := Idle], Write);
    assert s.threads[t := Idle][u] == s.threads[u];
  }

  /** The semaphore's own fields, changed by its lock sections. */
  class Semaphore {
    var count: int
    var waitReaders: int
    var waitWriters: int
    ghost var threads: seq<Role>

    ghost function Now(): State
      reads this
    {
      State(count, waitReaders, waitWriters, threads)
    }

    constructor (n: nat)
      ensures Inv(Now()) && |threads| == n
    {
      count, waitReaders, waitWriters := 0, 0, 0;
      threads := seq(n, _ => Idle);
      new;
      AllIdle(threads, Read);
      AllIdle(threads, Write);
      AllIdle(threads, WaitRead);
      AllIdle(threads, WaitWrite);
    }

    method TryRead(ghost t: int) returns (admitted: bool)
      requires Inv(Now()) && 0 <= t < |threads| && Bracketed(threads[t], DownRead)
      modifies this
      ensures Now() == Step(old(Now()), t, DownRead) && Inv(Now()) && admitted == (threads[t] == Read)
    {
      StepKeeps(Now(), t, DownRead);
      if count >= 0 && waitWriters == 0 {
        count := count + 1;
        threads := threads[t := Read];
        return true;
      }
      waitReaders := waitReaders + 1;
      threads := threads[t := WaitRead];
      return false;
    }

    method EndReadWait(ghost t: int)
      requires Inv(Now()) && 0 <= t < |threads| && Bracketed(threads[t], WakeRead)
      modifies this
      ensures Now() == Step(old(Now()), t, WakeRead) && Inv(Now())
    {
      StepKeeps(Now(), t, WakeRead);
      waitReaders := waitReaders - 1;
      threads := threads[t := WantRead];
    }

    method UpRead(ghost t: int) returns (wake: bool)
      requires Inv(Now()) && 0 <= t < |threads| && Bracketed(threads[t], Action.UpRead)
      modifies this
      ensures Now() == Step(old(Now()), t, Action.UpRead) && Inv(Now())
      ensures count == old(count) - 1 && wake == (Num(threads, Read) == 0 && Num(threads, WaitWrite) > 0)
    {
      StepKeeps(Now(), t, Action.UpRead);
      NumPositive(threads, Read);
      wake := false;
      if count > 0 {
        count := count - 1;
        if count == 0 && waitWriters > 0 { wake := true; }
      }
      threads := threads[t := Idle];
    }

    method TryWrite(ghost t: int) returns (admitted: bool)
      requires Inv(Now()) && 0 <= t < |threads| && Bracketed(threads[t], DownWrite)
      modifies this
      ensures Now() == Step(old(Now()), t, DownWrite) && Inv(Now()) && admitted == (threads[t] == Write)
    {
      StepKeeps(Now(), t, DownWrite);
      if count == 0 {
        count := -1;
        threads := threads[t := Write];
        return true;
      }
      waitWriters := waitWriters + 1;
      threads := threads[t := WaitWrite];
      return false;
    }

    method EndWriteWait(ghost t: int)
      requires Inv(Now()) && 0 <= t < |threads| && Bracketed(threads[t], WakeWrite)
      modifies this
      ensures Now() == Step(old(Now()), t, WakeWrite) && Inv(Now())
    {
      StepKeeps(Now(), t, WakeWrite);
      waitWriters := waitWriters - 1;
      threads := threads[t := WantWrite];
    }

    method UpWrite(ghost t: int) returns (wake: bool)
      requires Inv(Now()) && 0 <= t < |threads| && Bracketed(threads[t], Action.UpWrite)
      modifies this
      ensures Now() == Step(old(Now()), t, Action.UpWrite) && Inv(Now())
      ensures wake == (Num(threads, WaitRead) > 0 || Num(threads, WaitWrite) > 0)
    {
      StepKeeps(Now(), t, Action.UpWrite);
      count := 0;
      wake := waitWriters > 0 || waitReaders > 0;
      threads := threads[t := Idle];
    }
  }
}
