/**
 Path normalisation (fs/vfs_path.c). A path means a stack of names; the code edits a buffer of 1024 characters and cuts
 what does not fit. Strings carry no terminator.
 */
module Paths {
  import opened Basics

  const MAX_PATH := 1024

  // ---- Names and stacks ----------------------------------------------------------------------

  predicate NoSlash(s: string) { forall i :: 0 <= i < |s| ==> s[i] != '/' }

  /** A name that can stand in a canonical path. */
  predicate Name(s: string) { s != "" && NoSlash(s) && s != "." && s != ".." }

  ghost predicate Names(st: seq<string>) { forall i :: 0 <= i < |st| ==> Name(st[i]) }

  predicate Piece(s: string) { s != "" && NoSlash(s) }

  /** What stands between slashes; dots may be among them. */
  ghost predicate Pieces(st: seq<string>) { forall i :: 0 <= i < |st| ==> Piece(st[i]) }

  /** How far a component reaches. */
  function Run(s: string): (n: int)
    ensures 0 <= n <= |s| && NoSlash(s[..n]) && (n < |s| ==> s[n] == '/')
  {
    if s == "" || s[0] == '/' then 0
    else
      var n := 1 + Run(s[1..]);
      assert s[..n] == [s[0]] + s[1..][..n - 1];
      n
  }

  /** The components of a path: what stands between slashes, the empty ones left out. */
  function Split(s: string): seq<string>
    decreases |s|
  {
    if s == "" then [] else if s[0] == '/' then Split(s[1..]) else [s[..Run(s)]] + Split(s[Run(s)..])
  }

  function Enter(st: seq<string>, c: string): seq<string> {
    if c == "." then st
    else if c == ".." then (if st == [] then [] else st[..|st| - 1])
    else st + [c]
  }

  /** Component by component, as on a stack. */
  function Eval(st: seq<string>, comps: seq<string>): seq<string>
    decreases |comps|
  {
    if comps == [] then st else Eval(Enter(st, comps[0]), comps[1..])
  }

  /** A stack written as a path, the root aside. */
  function Spell(st: seq<string>): string { if st == [] then "" else Spell(st[..|st| - 1]) + "/" + st[|st| - 1] }

  function Render(st: seq<string>): string { if st == [] then "/" else Spell(st) }

  lemma {:induction false} SpellPush(st: seq<string>, c: string)
    ensures Spell(st + [c]) == Spell(st) + "/" + c && Render(st + [c]) == Spell(st) + "/" + c
  {
    assert (st + [c])[..|st|] == st;
  }

  lemma {:induction false} SpellShape(st: seq<string>)
    requires Pieces(st)
    ensures st != [] ==> |Spell(st)| >= 2 && Spell(st)[0] == '/' && Spell(st)[|Spell(st)| - 1] != '/'
    decreases |st|
  {
    if st != [] {
      var n := |st| - 1;
      SpellShape(st[..n]);
      assert Piece(st[n]);
    }
  }

  lemma {:induction false} RunOf(c: string, t: string)
    requires NoSlash(c) && (t == "" || t[0] == '/')
    ensures Run(c + t) == |c|
    decreases |c|
  {
    if c == "" {
      assert c + t == t;
    } else {
      assert (c + t)[1..] == c[1..] + t;
      RunOf(c[1..], t);
    }
  }

  lemma SplitFirst(c: string, t: string)
    requires c != "" && NoSlash(c) && (t == "" || t[0] == '/')
    ensures Split(c + t) == [c] + Split(t)
  {
    RunOf(c, t);
    assert (c + t)[..|c|] == c && (c + t)[|c|..] == t;
  }

  lemma SlashSkipped(s: string)
    ensures Split("/" + s) == Split(s)
  {
    assert ("/" + s)[1..] == s;
  }

  lemma SlashFirst(c: string, t: string)
    requires c != "" && NoSlash(c) && (t == "" || t[0] == '/')
    ensures Split("/" + c + t) == [c] + Split(t)
  {
    SplitFirst(c, t);
    SlashSkipped(c + t);
    Assoc("/", c, t);
  }

  lemma Glue<T>(a: seq<T>, b: seq<T>, c: seq<T>, d: seq<T>)
    ensures a + (b + c + d) == a + b + c + d
  {
  }

  lemma Regroup<T>(s: seq<T>, t: seq<T>)
    requires s != []
    ensures s[..|s| - 1] + ([s[|s| - 1]] + t) == s + t
  {
  }

  lemma {:induction false} SplitSpell(st: seq<string>, t: string)
    requires Pieces(st) && (t == "" || t[0] == '/')
    ensures Split(Spell(st) + t) == st + Split(t)
    decreases |st|
  {
    if st == [] {
      assert Spell(st) + t == t;
      assert st + Split(t) == Split(t);
    } else {
      var n := |st| - 1;
      var p, c := st[..n], st[n];
      assert Piece(c);
      SplitSpell(p, "/" + c + t);
      SlashFirst(c, t);
      Glue(Spell(p), "/", c, t);
      Regroup(st, Split(t));
    }
  }

  /** A path falls into the pieces it was made of. */
  lemma SplitRender(st: seq<string>)
    requires Pieces(st)
    ensures Split(Render(st)) == st
  {
    SplitSpell(st, "");
    assert Spell(st) + "" == Spell(st);
    if st == [] { assert "/"[1..] == ""; }
  }

  lemma NamesTail(comps: seq<string>)
    requires Names(comps) && comps != []
    ensures Name(comps[0]) && Names(comps[1..])
  {
    assert Name(comps[0]);
    forall i | 0 <= i < |comps| - 1 ensures Name(comps[1..][i]) { assert Name(comps[i + 1]); }
  }

  lemma {:induction false} EvalNames(st: seq<string>, comps: seq<string>)
    requires Names(comps)
    ensures Eval(st, comps) == st + comps
    decreases |comps|
  {
    if comps == [] {
      assert st + comps == st;
    } else {
      NamesTail(comps);
      EvalNames(st + [comps[0]], comps[1..]);
      Assoc(st, [comps[0]], comps[1..]);
      assert [comps[0]] + comps[1..] == comps;
    }
  }

  lemma {:induction false} SplitPieces(s: string)
    ensures Pieces(Split(s))
    decreases |s|
  {
    if s != "" { if s[0] == '/' { SplitPieces(s[1..]); } else { SplitPieces(s[Run(s)..]); } }
  }

  /** Names in, names out: neither dots nor empty names survive. */
  lemma {:induction false} EvalKeepsNames(st: seq<string>, comps: seq<string>)
    requires Names(st) && Pieces(comps)
    ensures Names(Eval(st, comps))
    decreases |comps|
  {
    if comps != [] {
      assert forall i :: 0 <= i < |comps| - 1 ==> comps[1..][i] == comps[i + 1];
      EvalKeepsNames(Enter(st, comps[0]), comps[1..]);
    }
  }

  // ---- What normalisation means --------------------------------------------------------------

  ghost predicate Canonical(path: string) { exists st :: Names(st) && path == Render(st) }

  /** The stack a path starts from. */
  function Start(cwd: Option<string>, path: string): seq<string> {
    if path != "" && path[0] == '/' then [] else if cwd.Some? && cwd.value != "" && cwd.value[0] == '/' then Split(cwd.value) else []
  }

  function Meaning(cwd: Option<string>, path: string): seq<string> {
    if path == "" then (if cwd.Some? then Eval([], Split(cwd.value)) else [])
    else Eval(Start(cwd, path), Split(path))
  }

  /** A dot stays, two dots undo the name before them and do nothing at the root. */
  lemma DotsMean(st: seq<string>, c: string)
    requires Name(c)
    ensures Eval(st, ["."]) == st && Eval(st, [c, ".."]) == st && Eval(st, [c]) == st + [c] && Eval([], [".."]) == []
  {
    assert [c, ".."][1..] == [".."] && [".."][1..] == [] && ["."][1..] == [] && [c][1..] == [];
    assert (st + [c])[..|st|] == st;
    assert Eval(st + [c], [".."]) == Eval(st, []);
  }

  lemma {:induction false} EvalConcat(st: seq<string>, a: seq<string>, b: seq<string>)
    ensures Eval(st, a + b) == Eval(Eval(st, a), b)
    decreases |a|
  {
    if a == [] {
      assert a + b == b;
    } else {
      assert (a + b)[1..] == a[1..] + b;
      EvalConcat(Enter(st, a[0]), a[1..], b);
    }
  }

  /** A relative path means what the absolute path made of the working directory and it means. */
  lemma RelativeMeans(dir: seq<string>, path: string)
    requires Names(dir) && path != "" && path[0] != '/'
    ensures Meaning(Some(Render(dir)), path) == Meaning(None, Render(dir) + "/" + path)
  {
    NamesArePieces(dir);
    SplitRender(dir);
    SpellShape(dir);
    EvalNames([], dir);
    assert [] + dir == dir;
    JoinSplit(dir, path);
    EvalConcat([], dir, Split(path));
  }

  /** An absolute path does not depend on the working directory, and no path is the working directory. */
  lemma AbsoluteMeans(dir: seq<string>, path: string, cwd: Option<string>)
    requires Names(dir)
    ensures path != "" && path[0] == '/' ==> Meaning(cwd, path) == Meaning(None, path)
    ensures Meaning(Some(Render(dir)), "") == dir && Meaning(None, "") == []
  {
    NamesArePieces(dir);
    SplitRender(dir);
    EvalNames([], dir);
    assert [] + dir == dir;
  }

  lemma JoinSplit(dir: seq<string>, path: string)
    requires Pieces(dir)
    ensures Split(Render(dir) + "/" + path) == dir + Split(path)
  {
    SlashSkipped(path);
    if dir == [] {
      assert Render(dir) + "/" + path == "/" + ("/" + path);
      SlashSkipped("/" + path);
    } else {
      assert Render(dir) + "/" + path == Spell(dir) + ("/" + path);
      SplitSpell(dir, "/" + path);
    }
  }

  // ---- What the buffer holds -----------------------------------------------------------------

  /** The buffer: the path of a stack, perhaps with a slash behind it. */
  datatype State = State(st: seq<string>, slash: bool)

  function Text(x: State): string { if x.st == [] then "/" else Spell(x.st) + if x.slash then "/" else "" }

  const ROOT := State([], false)

  /** A component is added as far as it fits; without room for a slash nothing is. */
  function Add(x: State, c: string): State
    requires |Text(x)| < MAX_PATH
  {
    var len := |Spell(x.st)| + 1;
    var n := if len + |c| >= MAX_PATH then MAX_PATH - 1 - len else |c|;
    if len >= MAX_PATH then x else if n > 0 then State(x.st + [c[..n]], false) else State(x.st, true)
  }

  function Step(x: State, c: string): State
    requires |Text(x)| < MAX_PATH
  {
    if c == "." then x
    else if c == ".." then (if x.st == [] then x else State(x.st[..|x.st| - 1], true))
    else Add(x, c)
  }

  /** What is true of every state: only a last component that was cut, at the end of the buffer, can be a dot entry. */
  ghost predicate StateOk(x: State) {
    && |Text(x)| < MAX_PATH && Pieces(x.st)
    && (forall i :: 0 <= i < |x.st| - 1 ==> Name(x.st[i]))
    && (|Text(x)| < MAX_PATH - 1 || x.slash ==> Names(x.st))
  }

  lemma SpellLonger(st: seq<string>)
    requires st != []
    ensures |Spell(st)| == |Spell(st[..|st| - 1])| + 1 + |st[|st| - 1]|
  {
  }

  lemma PopOk(x: State)
    requires StateOk(x) && x.st != []
    ensures StateOk(State(x.st[..|x.st| - 1], true))
  {
    var st := x.st[..|x.st| - 1];
    SpellLonger(x.st);
    assert Piece(x.st[|x.st| - 1]);
    forall i | 0 <= i < |st| ensures Name(st[i]) { assert Name(x.st[i]); }
  }

  /** How much of a component fits. */
  function Room(x: State, c: string): int {
    var len := |Spell(x.st)| + 1;
    if len + |c| >= MAX_PATH then MAX_PATH - 1 - len else |c|
  }

  /** What the buffer holds after a component is added. */
  lemma AddText(x: State, c: string)
    requires |Text(x)| < MAX_PATH && |Spell(x.st)| + 1 < MAX_PATH
    ensures 0 <= Room(x, c) <= |c|
    ensures x.st != [] || Room(x, c) > 0 ==> Text(Add(x, c)) == Spell(x.st) + "/" + c[..Room(x, c)]
  {
    SpellPush(x.st, c[..Room(x, c)]);
    assert Room(x, c) == 0 ==> Spell(x.st) + "/" + c[..0] == Spell(x.st) + "/";
  }

  lemma PushOk(st: seq<string>, d: string, whole: bool)
    requires Names(st) && Piece(d) && |Spell(st)| + 1 + |d| < MAX_PATH && (whole ==> Name(d))
    requires !whole ==> |Spell(st)| + 1 + |d| == MAX_PATH - 1
    ensures StateOk(State(st + [d], false))
  {
    SpellPush(st, d);
    NamesArePieces(st);
    var all := st + [d];
    forall i | 0 <= i < |all| ensures Piece(all[i]) && (i < |st| ==> Name(all[i])) { if i < |st| { assert Piece(st[i]) && Name(st[i]); } }
  }

  lemma AddOk(x: State, c: string)
    requires StateOk(x) && Piece(c) && c != "." && c != ".."
    ensures StateOk(Add(x, c))
  {
    if |Spell(x.st)| + 1 < MAX_PATH {
      var n := Room(x, c);
      assert Names(x.st);
      if n > 0 {
        assert n == |c| ==> c[..n] == c;
        PushOk(x.st, c[..n], n == |c|);
      }
    }
  }

  lemma StepOk(x: State, c: string)
    requires StateOk(x) && Piece(c)
    ensures StateOk(Step(x, c))
  {
    if c == ".." { if x.st != [] { PopOk(x); } } else if c != "." { AddOk(x, c); }
  }

  /** Component by component, in the buffer. */
  function Fold(x: State, comps: seq<string>): State
    requires StateOk(x) && Pieces(comps)
    decreases |comps|
  {
    if comps == [] then x
    else
      StepOk(x, comps[0]);
      PiecesTail(comps);
      Fold(Step(x, comps[0]), comps[1..])
  }

  lemma PiecesTail(comps: seq<string>)
    requires Pieces(comps) && comps != []
    ensures Piece(comps[0]) && Pieces(comps[1..])
  {
    assert Piece(comps[0]);
    forall i | 0 <= i < |comps| - 1 ensures Piece(comps[1..][i]) { assert Piece(comps[i + 1]); }
  }

  lemma {:induction false} FoldOk(x: State, comps: seq<string>)
    requires StateOk(x) && Pieces(comps)
    ensures StateOk(Fold(x, comps))
    decreases |comps|
  {
    if comps != [] {
      StepOk(x, comps[0]);
      PiecesTail(comps);
      FoldOk(Step(x, comps[0]), comps[1..]);
    }
  }

  /** The working directory is used. */
  predicate Uses(cwd: Option<string>, path: string) {
    path != "" && path[0] != '/' && cwd.Some? && cwd.value != "" && cwd.value[0] == '/'
  }

  /** The working directory is a canonical path that fits the buffer, where it is used. */
  ghost predicate Relevant(cwd: Option<string>, path: string) {
    Uses(cwd, path) ==> Canonical(cwd.value) && |cwd.value| < MAX_PATH
  }

  ghost function First(cwd: Option<string>, path: string): State {
    if Uses(cwd, path) then State(Split(cwd.value), |cwd.value| < MAX_PATH - 1) else ROOT
  }

  lemma FirstOk(cwd: Option<string>, path: string)
    requires Relevant(cwd, path)
    ensures StateOk(First(cwd, path))
    ensures Uses(cwd, path) ==> Names(Split(cwd.value)) && cwd.value == Render(Split(cwd.value))
  {
    if Uses(cwd, path) {
      var st :| Names(st) && cwd.value == Render(st);
      NamesArePieces(st);
      SplitRender(st);
    }
  }

  lemma NamesArePieces(st: seq<string>)
    requires Names(st)
    ensures Pieces(st)
  {
    forall i | 0 <= i < |st| ensures Piece(st[i]) { assert Name(st[i]); }
  }

  /** The stack in the buffer at the end. */
  ghost function Last(cwd: Option<string>, path: string): seq<string>
    requires Relevant(cwd, path)
  {
    if path == "" then
      var p := if cwd.Some? then cwd.value else "";
      SplitPieces(p);
      Fold(ROOT, Split(p)).st
    else
      FirstOk(cwd, path);
      SplitPieces(path);
      Fold(First(cwd, path), Split(path)).st
  }

  /** The normal form of every path, cut ones included. */
  ghost function Normal(cwd: Option<string>, path: string): string
    requires Relevant(cwd, path)
  {
    Render(Last(cwd, path))
  }

  lemma LastOk(cwd: Option<string>, path: string)
    requires Relevant(cwd, path)
    ensures Pieces(Last(cwd, path)) && |Render(Last(cwd, path))| < MAX_PATH
    ensures forall i :: 0 <= i < |Last(cwd, path)| - 1 ==> Name(Last(cwd, path)[i])
  {
    if path == "" {
      var p := if cwd.Some? then cwd.value else "";
      SplitPieces(p);
      FoldOk(ROOT, Split(p));
    } else {
      FirstOk(cwd, path);
      SplitPieces(path);
      FoldOk(First(cwd, path), Split(path));
    }
  }

  /** No path on the way is longer than the buffer takes. */
  ghost predicate Short(st: seq<string>, comps: seq<string>)
    decreases |comps|
  {
    |Render(st)| < MAX_PATH && (comps == [] || Short(Enter(st, comps[0]), comps[1..]))
  }

  ghost predicate Fitting(cwd: Option<string>, path: string) {
    if path == "" then cwd.Some? ==> Short([], Split(cwd.value)) else Short(Start(cwd, path), Split(path))
  }

  lemma StepIsEnter(x: State, c: string)
    requires StateOk(x) && Piece(c) && |Render(Enter(x.st, c))| < MAX_PATH
    ensures Step(x, c).st == Enter(x.st, c)
  {
    if c != "." && c != ".." {
      SpellPush(x.st, c);
      assert c[..|c|] == c;
    }
  }

  lemma {:induction false} FoldIsEval(x: State, comps: seq<string>)
    requires StateOk(x) && Pieces(comps) && Short(x.st, comps)
    ensures Fold(x, comps).st == Eval(x.st, comps)
    decreases |comps|
  {
    if comps != [] {
      StepOk(x, comps[0]);
      PiecesTail(comps);
      StepIsEnter(x, comps[0]);
      FoldIsEval(Step(x, comps[0]), comps[1..]);
    }
  }

  /** When nothing is cut, the normal form is the canonical path of the stack the path means. */
  lemma NormalMeaning(cwd: Option<string>, path: string)
    requires Relevant(cwd, path) && Fitting(cwd, path)
    ensures Normal(cwd, path) == Render(Meaning(cwd, path)) && Names(Meaning(cwd, path))
  {
    MeaningNames(cwd, path);
    if path == "" {
      var p := if cwd.Some? then cwd.value else "";
      SplitPieces(p);
      FoldIsEval(ROOT, Split(p));
    } else {
      FirstOk(cwd, path);
      SplitPieces(path);
      FoldIsEval(First(cwd, path), Split(path));
    }
  }

  lemma ShortStep(p: seq<string>, c: string, rest: seq<string>)
    requires |Render(p)| < MAX_PATH && Name(c) && Short(p + [c], rest)
    ensures Short(p, [c] + rest)
  {
    assert ([c] + rest)[1..] == rest;
  }

  // A stack that fits the buffer fits it name by name.
  lemma {:induction false} PrefixShort(st: seq<string>, rest: seq<string>)
    requires Names(st + rest) && |Render(st + rest)| < MAX_PATH
    ensures Short(st, rest)
    decreases |rest|
  {
    SpellPrefix(st, rest);
    if rest != [] {
      var c, later := rest[0], rest[1..];
      assert (st + rest)[|st|] == c;
      assert st + rest == st + [c] + later && rest == [c] + later;
      PrefixShort(st + [c], later);
      ShortStep(st, c, later);
    }
  }

  lemma {:induction false} SpellPrefix(st: seq<string>, rest: seq<string>)
    ensures |Spell(st)| <= |Spell(st + rest)|
    decreases |rest|
  {
    if rest != [] {
      SpellPrefix(st, rest[..|rest| - 1]);
      assert (st + rest)[..|st + rest| - 1] == st + rest[..|rest| - 1];
    } else {
      assert st + rest == st;
    }
  }

  /** The path of names that fits the buffer is its own normal form, wherever it starts from. */
  lemma CanonicalStays(cwd: Option<string>, st: seq<string>)
    requires Names(st) && |Render(st)| < MAX_PATH
    ensures Relevant(cwd, Render(st)) && Normal(cwd, Render(st)) == Render(st)
  {
    NamesArePieces(st);
    SpellShape(st);
    SplitRender(st);
    EvalNames([], st);
    assert [] + st == st;
    PrefixShort([], st);
    NormalMeaning(cwd, Render(st));
  }

  // Names that fit are entered one by one.
  lemma FoldNames(st: seq<string>)
    requires Names(st) && |Render(st)| < MAX_PATH
    ensures Pieces(st) && Fold(ROOT, st).st == st
  {
    NamesArePieces(st);
    assert [] + st == st;
    PrefixShort([], st);
    EvalNames([], st);
    FoldIsEval(ROOT, st);
  }

  lemma InitFits(st: seq<string>)
    requires st != [] && Pieces(st) && |Render(st)| < MAX_PATH
    ensures |Render(st[..|st| - 1])| < |Render(st)| && |Spell(st[..|st| - 1])| < |Render(st)|
  {
    SpellLonger(st);
    assert Piece(st[|st| - 1]);
  }

  // A cut last component that is a dot entry does not survive a second time.
  lemma DotGoes(cwd: Option<string>, st: seq<string>)
    requires st != [] && Pieces(st) && |Render(st)| < MAX_PATH && Names(st[..|st| - 1])
    requires var c := st[|st| - 1]; c == "." || c == ".."
    ensures Relevant(cwd, Render(st)) && |Normal(cwd, Render(st))| < |Render(st)|
  {
    var init := st[..|st| - 1];
    InitFits(st);
    FoldNames(init);
    FoldLast(ROOT, st);
    NamesArePieces(init);
    if init != [] { InitFits(init); }
    AbsoluteNormal(cwd, st);
  }

  // A path of pieces starts at the root, wherever that is said.
  lemma AbsoluteNormal(cwd: Option<string>, st: seq<string>)
    requires st != [] && Pieces(st)
    ensures Relevant(cwd, Render(st)) && Normal(cwd, Render(st)) == Render(Fold(ROOT, st).st)
  {
    SpellShape(st);
    SplitRender(st);
  }

  lemma {:induction false} FoldLast(x: State, comps: seq<string>)
    requires StateOk(x) && Pieces(comps) && comps != []
    ensures Pieces(comps[..|comps| - 1]) && StateOk(Fold(x, comps[..|comps| - 1])) && Piece(comps[|comps| - 1])
    ensures Fold(x, comps) == Step(Fold(x, comps[..|comps| - 1]), comps[|comps| - 1])
    decreases |comps|
  {
    var n := |comps| - 1;
    var init := comps[..n];
    forall i | 0 <= i < n ensures Piece(init[i]) { assert Piece(comps[i]); }
    assert Piece(comps[n]);
    FoldOk(x, init);
    PiecesTail(comps);
    StepOk(x, comps[0]);
    if n > 0 {
      FoldLast(Step(x, comps[0]), comps[1..]);
      assert comps[1..][..n - 1] == init[1..];
    } else {
      assert comps[1..] == [];
    }
  }

  /** Of a component that does not fit, one or two dots do. */
  predicate DotCut(x: State, c: string) {
    || (|Spell(x.st)| == MAX_PATH - 3 && |c| >= 2 && c[0] == '.' && c != "..")
    || (|Spell(x.st)| == MAX_PATH - 4 && |c| >= 3 && c[..2] == "..")
  }

  lemma PiecesUpTo(comps: seq<string>, i: int)
    requires Pieces(comps) && 0 <= i <= |comps|
    ensures Pieces(comps[..i])
  {
    forall j | 0 <= j < i ensures Piece(comps[..i][j]) { assert Piece(comps[j]); }
  }

  /** The component that is reached with the buffer so full, and which nothing after it goes up from. */
  ghost predicate CutAt(x: State, comps: seq<string>, i: int)
    requires StateOk(x) && Pieces(comps) && 0 <= i < |comps|
  {
    PiecesUpTo(comps, i);
    DotCut(Fold(x, comps[..i]), comps[i]) && ".." !in comps[i + 1..]
  }

  ghost predicate CutSomewhere(x: State, comps: seq<string>)
    requires StateOk(x) && Pieces(comps)
  {
    exists i :: 0 <= i < |comps| && CutAt(x, comps, i)
  }

  predicate EndsInDot(st: seq<string>) { st != [] && (st[|st| - 1] == "." || st[|st| - 1] == "..") }

  lemma NamesEnd(st: seq<string>)
    requires Names(st)
    ensures !EndsInDot(st)
  {
    if st != [] { assert Name(st[|st| - 1]); }
  }

  lemma AddedEnd(x: State, c: string)
    requires StateOk(x) && Piece(c) && c != "." && c != ".." && |Spell(x.st)| < MAX_PATH - 1
    ensures !EndsInDot(x.st) && (EndsInDot(Add(x, c).st) <==> DotCut(x, c))
  {
    NamesEnd(x.st);
    var n := Room(x, c);
    assert n == |c| ==> c[..n] == c;
    assert n == 1 ==> c[..n] == [c[0]];
  }

  // One more component after those of a path.
  lemma CutLater(x: State, comps: seq<string>, i: int)
    requires StateOk(x) && Pieces(comps) && 0 <= i < |comps| - 1
    ensures Pieces(comps[..|comps| - 1])
    ensures CutAt(x, comps, i) <==> CutAt(x, comps[..|comps| - 1], i) && comps[|comps| - 1] != ".."
  {
    var n := |comps| - 1;
    PiecesUpTo(comps, n);
    assert comps[..n][..i] == comps[..i];
    assert comps[i + 1..] == comps[..n][i + 1..] + [comps[n]];
  }

  lemma CutLast(x: State, comps: seq<string>)
    requires StateOk(x) && Pieces(comps) && comps != []
    ensures var n := |comps| - 1;
            && Pieces(comps[..n])
            && (CutSomewhere(x, comps) <==>
                  (comps[n] != ".." && CutSomewhere(x, comps[..n])) || DotCut(Fold(x, comps[..n]), comps[n]))
  {
    var n := |comps| - 1;
    PiecesUpTo(comps, n);
    assert comps[n + 1..] == [];
    assert CutAt(x, comps, n) <==> DotCut(Fold(x, comps[..n]), comps[n]);
    forall i | 0 <= i < n ensures CutAt(x, comps, i) <==> CutAt(x, comps[..n], i) && comps[n] != ".." { CutLater(x, comps, i); }
    if comps[n] != ".." && CutSomewhere(x, comps[..n]) {
      var i :| 0 <= i < n && CutAt(x, comps[..n], i);
      assert CutAt(x, comps, i);
    }
  }

  /** A dot entry is left at the end if and only if some component was cut down to it and nothing goes up afterwards. */
  lemma {:induction false} DotLeft(x: State, comps: seq<string>)
    requires StateOk(x) && Names(x.st) && Pieces(comps)
    ensures EndsInDot(Fold(x, comps).st) <==> CutSomewhere(x, comps)
    decreases |comps|
  {
    if comps == [] {
      NamesEnd(x.st);
    } else {
      var n := |comps| - 1;
      FoldLast(x, comps);
      CutLast(x, comps);
      DotLeft(x, comps[..n]);
      DotStep(Fold(x, comps[..n]), comps[n]);
    }
  }

  // The end of the stack from one component to the next.
  lemma DotStep(y: State, c: string)
    requires StateOk(y) && Piece(c)
    ensures EndsInDot(Step(y, c).st) <==> (c != ".." && EndsInDot(y.st)) || DotCut(y, c)
  {
    if c == ".." {
      if y.st != [] { PopOk(y); NamesEnd(Step(y, c).st); }
    } else if c != "." && |Spell(y.st)| < MAX_PATH - 1 {
      AddedEnd(y, c);
    }
  }

  /** The buffer and the components a path is normalised with. */
  ghost function Input(cwd: Option<string>, path: string): (State, seq<string>) {
    if path == "" then (ROOT, Split(if cwd.Some? then cwd.value else "")) else (First(cwd, path), Split(path))
  }

  lemma InputOk(cwd: Option<string>, path: string)
    requires Relevant(cwd, path)
    ensures var (x, comps) := Input(cwd, path);
            StateOk(x) && Names(x.st) && Pieces(comps) && Last(cwd, path) == Fold(x, comps).st
  {
    if path == "" { SplitPieces(if cwd.Some? then cwd.value else ""); } else { FirstOk(cwd, path); SplitPieces(path); }
  }

  /** Normalising twice changes nothing, unless the end of the buffer cuts a component of the input right behind its
      leading dots and nothing after it goes up. */
  lemma Idempotent(cwd: Option<string>, path: string, cwd': Option<string>)
    requires Relevant(cwd, path)
    ensures var once := Normal(cwd, path);
            && Relevant(cwd', once)
            && (Normal(cwd', once) == once <==>
                  (InputOk(cwd, path); var (x, comps) := Input(cwd, path); !CutSomewhere(x, comps)))
            && (Fitting(cwd, path) ==> Normal(cwd', once) == once)
  {
    var st := Last(cwd, path);
    LastOk(cwd, path);
    InputOk(cwd, path);
    DotLeft(Input(cwd, path).0, Input(cwd, path).1);
    if EndsInDot(st) {
      DotGoes(cwd', st);
    } else {
      assert st != [] ==> Piece(st[|st| - 1]);
      CanonicalStays(cwd', st);
    }
    if Fitting(cwd, path) {
      NormalMeaning(cwd, path);
      CanonicalStays(cwd', Meaning(cwd, path));
    }
  }

  lemma FirstFits(a: string)
    requires Name(a) && |a| == 1020
    ensures Piece(a) && |Spell([a])| == 1021 && StateOk(State([a], false)) && Step(ROOT, a) == State([a], false)
  {
    assert [] + [a] == [a] && a[..1020] == a;
    SpellPush([], a);
    StepOk(ROOT, a);
  }

  // A name of 1020 characters fits, and of a second one that begins with a dot the dot does.
  lemma CutsAtDot(a: string, c: string)
    requires Name(a) && |a| == 1020 && Piece(c) && |c| >= 2 && c[0] == '.' && c != ".."
    ensures StateOk(State([a], false)) && Step(ROOT, a) == State([a], false)
    ensures Step(State([a], false), c) == State([a, "."], false)
  {
    FirstFits(a);
    var x := State([a], false);
    assert Room(x, c) == 1 && c[..1] == "." && [a] + ["."] == [a, "."];
    assert Step(x, c) == Add(x, c);
  }

  /** Such paths: those of a name of 1020 characters and one that begins with a dot and goes on. */
  lemma TwiceDiffers(a: string, c: string, cwd: Option<string>)
    requires Name(a) && |a| == 1020 && Piece(c) && |c| >= 2 && c[0] == '.' && c != ".."
    ensures var path := Render([a, c]);
            Relevant(cwd, path) && Relevant(cwd, Normal(cwd, path)) && Normal(cwd, Normal(cwd, path)) != Normal(cwd, path)
  {
    var st, path := [a, c], Render([a, c]);
    CutsAtDot(a, c);
    assert Piece(a) && Pieces(st);
    SpellShape(st);
    SplitRender(st);
    FoldTwo(a, c);
    assert Input(cwd, path) == (ROOT, st) && Last(cwd, path) == [a, "."];
    InputOk(cwd, path);
    DotLeft(ROOT, st);
    Idempotent(cwd, path, cwd);
  }

  lemma FoldTwo(a: string, c: string)
    requires Piece(a) && Piece(c) && StateOk(Step(ROOT, a)) && Pieces([a, c])
    ensures Fold(ROOT, [a, c]) == Step(Step(ROOT, a), c)
  {
    assert [a, c][1..] == [c] && [c][1..] == [];
    StepOk(ROOT, a);
    StepOk(Step(ROOT, a), c);
    assert Fold(Step(ROOT, a), [c]) == Step(Step(ROOT, a), c);
  }

  /** What is always true of the buffer. */
  predicate Rooted(out: string) { 1 <= |out| < MAX_PATH && out[0] == '/' }

  // ---- The code ------------------------------------------------------------------------------

  /** Back to the last slash, or to the root. */
  method DropLast(from: string) returns (out: string)
    requires Rooted(from)
    ensures Rooted(out) && |out| <= |from| && out == from[..|out|] && NoSlash(from[|out|..])
    ensures |out| > 1 ==> out[|out| - 1] == '/'
  {
    out := from;
    assert from[|from|..] == "";
    while |out| > 1 && out[|out| - 1] != '/'
      invariant Rooted(out) && |out| <= |from| && out == from[..|out|] && NoSlash(from[|out|..])
      decreases |out|
    {
      var n := |out| - 1;
      assert from[n..] == [from[n]] + from[n + 1..];
      out := out[..n];
    }
  }

  lemma DropsLast(from: string, n: int, base: string, c: string)
    requires from == base + c && NoSlash(c) && base != "" && base[|base| - 1] == '/'
    requires 1 <= n <= |from| && NoSlash(from[n..]) && (n > 1 ==> from[n - 1] == '/')
    ensures from[..n] == base
  {
    var b := |base|;
    forall i | n <= i < |from| ensures from[i] != '/' { assert from[n..][i - n] == from[i]; }
    forall i | b <= i < |from| ensures from[i] != '/' { assert c[i - b] == from[i]; }
    assert from[b - 1] == '/';
    assert n == b && from[..b] == base;
  }

  /** The buffer holds a state. */
  ghost predicate Holds(out: string, x: State) { StateOk(x) && out == Text(x) }

  lemma HoldsShape(out: string, x: State)
    requires Holds(out, x)
    ensures |out| > 1 <==> x.st != []
    ensures x.st != [] ==> (out[|out| - 1] == '/' <==> x.slash)
  {
    SpellShape(x.st);
  }

  method Up(from: string, ghost x: State) returns (out: string)
    requires Rooted(from)
    ensures Rooted(out) && (Holds(from, x) ==> Holds(out, Step(x, "..")))
  {
    out := from;
    if Holds(from, x) {
      HoldsShape(from, x);
      StepOk(x, "..");
    }
    if |out| > 1 {
      if out[|out| - 1] == '/' { out := out[..|out| - 1]; }
      ghost var cut := out;
      out := DropLast(out);
      if Holds(from, x) {
        UpFacts(from, x);
        DropsLast(cut, |out|, Spell(x.st[..|x.st| - 1]) + "/", x.st[|x.st| - 1]);
      }
    }
  }

  lemma UpFacts(from: string, x: State)
    requires Holds(from, x) && x.st != []
    ensures NoSlash(x.st[|x.st| - 1])
    ensures var n := |x.st| - 1;
      var cut := if from[|from| - 1] == '/' then from[..|from| - 1] else from;
      cut == Spell(x.st[..n]) + "/" + x.st[n] && Spell(x.st[..n]) + "/" == Text(State(x.st[..n], true))
  {
    HoldsShape(from, x);
    var n := |x.st| - 1;
    assert Piece(x.st[n]);
    if x.slash { assert from[..|from| - 1] == Spell(x.st); }
  }

  method Append(from: string, c: string, ghost x: State) returns (out: string)
    requires Rooted(from) && Piece(c) && c != "." && c != ".."
    ensures Rooted(out) && (Holds(from, x) ==> Holds(out, Step(x, c)))
  {
    if Holds(from, x) { AppendFacts(from, c, x); }
    out := from;
    if out[|out| - 1] != '/' {
      if |out| < MAX_PATH - 1 { out := out + "/"; }
    }
    var n := |c|;
    if |out| + n >= MAX_PATH { n := MAX_PATH - 1 - |out|; }
    if n > 0 { out := out + c[..n]; }
  }

  function Slashed(from: string): string
    requires from != ""
  {
    if from[|from| - 1] != '/' && |from| < MAX_PATH - 1 then from + "/" else from
  }

  lemma SlashedText(from: string, x: State)
    requires Holds(from, x)
    ensures from != "" && Slashed(from) == if |Spell(x.st)| + 1 < MAX_PATH then Spell(x.st) + "/" else from
    ensures |Spell(x.st)| + 1 >= MAX_PATH ==> |from| == MAX_PATH - 1
  {
    HoldsShape(from, x);
    assert "" + "/" == "/";
  }

  lemma AppendFacts(from: string, c: string, x: State)
    requires Holds(from, x) && Piece(c) && c != "." && c != ".."
    ensures StateOk(Step(x, c)) && from != ""
    ensures var slashed := Slashed(from);
            var n := if |slashed| + |c| >= MAX_PATH then MAX_PATH - 1 - |slashed| else |c|;
            n >= 0 && Text(Step(x, c)) == slashed + c[..n]
  {
    StepOk(x, c);
    SlashedText(from, x);
    if |Spell(x.st)| + 1 < MAX_PATH {
      AddText(x, c);
    } else {
      assert from + c[..0] == from;
    }
  }

  /** The buffer before the first component. */
  method Begin(cwd: Option<string>, path: string) returns (out: string)
    requires path != ""
    ensures Rooted(out) && (Relevant(cwd, path) ==> Holds(out, First(cwd, path)))
  {
    if Relevant(cwd, path) { FirstOk(cwd, path); }
    if path[0] == '/' {
      out := "/";
    } else if cwd.Some? && cwd.value != "" && cwd.value[0] == '/' {
      var n := |cwd.value|;
      if n >= MAX_PATH { n := MAX_PATH - 1; }
      out := cwd.value[..n];
      if Relevant(cwd, path) { SpellShape(Split(cwd.value)); }
      if out[|out| - 1] != '/' {
        if |out| < MAX_PATH - 1 { out := out + "/"; }
      }
    } else {
      out := "/";
    }
  }

  method Component(from: string, c: string, ghost x: State) returns (out: string)
    requires Rooted(from) && Piece(c)
    ensures Rooted(out) && (Holds(from, x) ==> Holds(out, Step(x, c)))
  {
    out := from;
    if c == "." {
    } else if c == ".." {
      out := Up(out, x);
    } else {
      out := Append(out, c, x);
    }
  }

  /** Half-way through a path. */
  ghost predicate Going(out: string, x: State, rest: string, goal: State) {
    Holds(out, x) && Pieces(Split(rest)) && Fold(x, Split(rest)) == goal
  }

  method Walk(from: string, rest: string, ghost start: State, ghost goal: State, ghost good: bool) returns (out: string)
    requires Rooted(from) && (good ==> Going(from, start, rest, goal))
    ensures Rooted(out) && (good ==> Holds(out, goal))
  {
    out := from;
    ghost var x := start;
    var p := rest;
    while p != ""
      invariant Rooted(out) && (good ==> Going(out, x, p, goal))
      decreases |p|
    {
      if p[0] == '/' {
        p := p[1..];
      } else {
        var n := Run(p);
        var c := p[..n];
        if good {
          StepOk(x, c);
          PiecesTail(Split(p));
          assert Split(p)[0] == c && Split(p)[1..] == Split(p[n..]);
        }
        out := Component(out, c, x);
        if good { x := Step(x, c); }
        p := p[n..];
      }
    }
  }

  /** A path is normalised to its normal form, which is rooted and fits the buffer whatever the path was. */
  method Normalize(cwd: Option<string>, path: string) returns (out: string)
    ensures Rooted(out)
    ensures Relevant(cwd, path) ==> out == Normal(cwd, path)
    decreases cwd.Some?
  {
    if path == "" {
      if cwd.Some? && cwd.value != "" {
        out := Normalize(None, cwd.value);
      } else {
        out := "/";
      }
      return;
    }
    ghost var good := Relevant(cwd, path);
    ghost var first, goal := ROOT, ROOT;
    if good {
      FirstOk(cwd, path);
      SplitPieces(path);
      first, goal := First(cwd, path), Fold(First(cwd, path), Split(path));
    }
    out := Begin(cwd, path);
    out := Walk(out, if path[0] == '/' then path[1..] else path, first, goal, good);
    if good { HoldsShape(out, goal); }
    if |out| > 1 && out[|out| - 1] == '/' { out := out[..|out| - 1]; }
    assert good && goal.slash && goal.st != [] ==> (Spell(goal.st) + "/")[..|Spell(goal.st)|] == Spell(goal.st);
  }

  /** What a path means is always a stack of names. */
  lemma MeaningNames(cwd: Option<string>, path: string)
    requires Relevant(cwd, path)
    ensures Names(Meaning(cwd, path))
  {
    SplitPieces(path);
    if path == "" {
      if cwd.Some? {
        SplitPieces(cwd.value);
        EvalKeepsNames([], Split(cwd.value));
      }
    } else {
      FirstOk(cwd, path);
      EvalKeepsNames(Start(cwd, path), Split(path));
    }
  }
}
