/**
  A `break` below an `if` that does no harm: the `break` of a loop further out puts the
  if-stack right again.  So the last condition of `ScriptBreak.RefinesIffRegular` is needed.
*/
module ScriptRescue {
  import opened ScriptMachine
  import opened ScriptTree
  import opened ScriptRefinement
  import opened ScriptExact

  /** while <b> / do / if <y> / then / break / fi / done */
  function Inner(b: Words, y: Words): (st: Stmt) {
    Loop(false, b, Cons(BreakIf(y), Nil))
  }

  /** if <y> / then / break / fi */
  function BreakIf(y: Words): (st: Stmt) {
    Branch(false, y, Cons(BreakLoop, Nil), false, Nil)
  }

  /** if <x> / then / the inner loop / fi */
  function Middle(x: Words, b: Words, y: Words): (st: Stmt) {
    Branch(false, x, Cons(Inner(b, y), Nil), false, Nil)
  }

  /** while <a> / do / the middle / break / done */
  function Outer(a: Words, x: Words, b: Words, y: Words): (st: Stmt) {
    Loop(false, a, Cons(Middle(x, b, y), Cons(BreakLoop, Nil)))
  }

  /** if <z> / then / the outer loop / fi */
  function Rescued(z: Words, a: Words, x: Words, b: Words, y: Words): (t: Block) {
    Cons(Branch(false, z, Cons(Outer(a, x, b, y), Nil), false, Nil), Nil)
  }

  /** The stacks are the same, but the if-stack is one lower. */
  predicate Lowered(p: Parser, q: Parser) {
    q.InRange() && q.iendx + 1 < |q.ie| && SameStacks(p, q.(iendx := q.iendx + 1))
  }

  /** The machine has done what `m` says, up to the height of the if-stack. */
  predicate Nearly(s: Script, c: Config, d: Config, m: Meaning, end: nat) {
    && d.p.InRange() && c.p.InRange() && !d.halted
    && d.trace == c.trace + m.events && d.results == m.rest && d.p.fail == m.fail && d.ret == m.ret
    && (m.end == Completed ==> d.p.pos == end && (SameStacks(c.p, d.p) || Lowered(c.p, d.p)))
    && (m.end == Waiting ==> Step(s, d) == d)
    && (m.end == Completed || m.end == Waiting)
  }

  lemma MatchesNearly(s: Script, c: Config, d: Config, m: Meaning, end: nat)
    requires Matches(s, c, d, m, end) && (m.end == Completed || m.end == Waiting)
    ensures Nearly(s, c, d, m, end)
  {
    hide Step;
  }

  /** The inner `if` stands at `at`. */
  predicate BreakIfAt(s: Script, at: nat, y: Words) {
    && at + 4 <= |s.cmds| && s.cmds[at] == IfLine(false, y) && s.cmds[at + 1] == [Then]
    && s.cmds[at + 2] == [BreakName] && s.cmds[at + 3] == [Fi] && PlainCommand(y)
  }

  /** The machine is at a statement of a loop body, with room for a branch. */
  predicate InLoopBody(s: Script, e: Config) {
    Ready(s, e) && InLoop(e.p) && e.p.LoopTop().iendx == e.p.iendx && e.p.iendx + 1 < |e.p.ie|
  }

  /** The machine is in a loop that stands in a `then` part. */
  predicate InThenLoop(s: Script, e: Config) {
    && InLoopBody(s, e) && 0 < e.p.iendx
    && e.p.ItefTop().state == ItefThen && e.p.ie[e.p.iendx - 1].state != ItefIf
  }

  /** One event happened and `$?` is 0. */
  predicate Did(e: Config, d: Config, pos: nat, ev: Event) {
    e.results != [] && d.p.InRange() && d.p.pos == pos && !d.p.fail
    && d == Config(d.p, e.results[1..], e.trace + [ev], false, false)
  }

  lemma IfThen(s: Script, e: Config, y: Words) returns (d: Config)
    requires InLoopBody(s, e) && BreakIfAt(s, e.p.pos, y) && e.results != []
    ensures e.p.InRange() && Reaches(s, e, d) && Did(e, d, e.p.pos + 2, Event(e.p.pos, y, e.results[0]))
    ensures d.p == PushBranch(e.p, ItefSlot(ItefThen, e.results[0], false, false)).(pos := e.p.pos + 2, fail := false)
  {
    hide Step; hide Reaches; hide IfLine;
    StepIf(s, e, false, y);
    ReachesStep(s, e);
    var t := Step(s, e);
    StepThen(s, t);
    ReachesNext(s, e, t);
    d := Step(s, t);
    assert d.p.ie == e.p.ie[e.p.iendx + 1 := ItefSlot(ItefThen, e.results[0], false, false)];
  }

  lemma PassBreakIf(s: Script, e: Config, y: Words) returns (d: Config)
    requires InLoopBody(s, e) && BreakIfAt(s, e.p.pos, y) && e.results != [] && e.results[0]
    ensures e.p.InRange() && Reaches(s, e, d) && Did(e, d, e.p.pos + 4, Event(e.p.pos, y, true)) && SameStacks(e.p, d.p)
  {
    hide Step; hide Reaches; hide IfLine;
    var u := IfThen(s, e, y);
    StepSkips(s, u);
    ReachesNext(s, e, u);
    var v := Step(s, u);
    StepFi(s, v);
    ReachesNext(s, e, v);
    d := Step(s, v);
  }

  lemma TakeBreakIf(s: Script, e: Config, y: Words) returns (d: Config)
    requires InThenLoop(s, e) && BreakIfAt(s, e.p.pos, y) && e.results != [] && !e.results[0]
    ensures e.p.InRange() && Reaches(s, e, d) && Did(e, d, e.p.pos + 4, Event(e.p.pos, y, false))
    ensures Lowered(Switched(e.p), d.p)
  {
    hide Step; hide Reaches; hide IfLine;
    var u := IfThen(s, e, y);
    StepBreak(s, u);
    ReachesNext(s, e, u);
    var v := Step(s, u);
    assert v.p.iendx == e.p.iendx && v.p.ItefTop() == e.p.ItefTop();
    StepFi(s, v);
    ReachesNext(s, e, v);
    d := Step(s, v);
  }

  lemma BodyMeaning(y: Words, at: nat, mode: Mode, rs: seq<bool>)
    requires mode.inLoop
    ensures
      Interpret(Cons(BreakIf(y), Nil), at, false, false, mode, rs) ==
        if rs == [] then Meaning([], [], Waiting, false, false)
        else Meaning([Event(at, y, rs[0])], rs[1..], if rs[0] then Completed else Broken, false, false)
  {
    if rs != [] {
      BreakIfMeaning(y, at, mode, rs);
      var m := InterpretStmt(BreakIf(y), at, false, false, mode, rs);
      assert m.events + [] == m.events;
    }
  }

  lemma BreakIfMeaning(y: Words, at: nat, mode: Mode, rs: seq<bool>)
    requires mode.inLoop && rs != []
    ensures InterpretStmt(BreakIf(y), at, false, false, mode, rs) ==
      Meaning([Event(at, y, rs[0])], rs[1..], if rs[0] then Completed else Broken, false, false)
  {
    var thn := Cons(BreakLoop, Nil);
    var m0 := Interpret(thn, at + 2, false, false, mode, rs[1..]);
    var m1 := Interpret(Nil, at + 3 + |Lines(thn)|, false, false, mode, rs[1..]);
    assert m0 == Meaning([], rs[1..], Broken, false, false) by {
      assert InterpretStmt(BreakLoop, at + 2, false, false, mode, rs[1..]) ==
        Meaning([], rs[1..], Broken, false, false);
    }
    assert m1 == Meaning([], rs[1..], Completed, false, false);
    var es := [Event(at, y, rs[0])];
    assert es + [] == es;
    hide Interpret;
    assert InterpretStmt(BreakIf(y), at, false, false, mode, rs) ==
      (if rs[0] then m1 else m0).After(es).(ret := false);
  }

  lemma InnerMeaning(s: Script, c: Config, b: Words, y: Words)
    ensures
      var m, rs, at := StmtMeaning(s, c, Inner(b, y)), c.results, c.p.pos;
      && (rs == [] ==> m == Meaning([], [], Waiting, c.p.fail, c.ret))
      && (rs != [] && rs[0] ==> m == Meaning([Event(at, b, true)], rs[1..], Completed, false, false))
      && (|rs| == 1 && !rs[0] ==> m == Meaning([Event(at, b, false)], [], Waiting, false, false))
      && (|rs| > 1 && !rs[0] && !rs[1] ==>
        m == Meaning([Event(at, b, false), Event(at + 2, y, false)], rs[2..], Completed, false, false))
      && (|rs| > 1 && !rs[0] && rs[1] ==>
        m == InterpretStmt(Inner(b, y), at, false, false, ModeAt(s, c.p), rs[2..])
             .After([Event(at, b, false), Event(at + 2, y, true)]))
  {
    hide Interpret;
    var rs, at := c.results, c.p.pos;
    if rs != [] && !rs[0] {
      BodyMeaning(y, at + 2, Mode(s.ignore, true), rs[1..]);
      if |rs| > 1 {
        assert rs[1..][1..] == rs[2..];
      }
    }
  }

  lemma InnerShape(p: Parser, b: Words, y: Words)
    requires PlainCommand(b) && PlainCommand(y) && FitsStmt(p, Inner(b, y))
    ensures WellFormedStmt(Inner(b, y)) && NoDirectLoop(Inner(b, y).body)
    ensures p.iendx + 1 < |p.ie| && p.lpndx + 1 < |p.lp|
  {
    assert WellFormedStmt(BreakIf(y)) by {
      assert WellFormed(Cons(BreakLoop, Nil));
    }
    assert BranchDepthOf(BreakIf(y)) == 1 && BranchDepth(Cons(BreakIf(y), Nil)) == 1;
  }

  lemma InnerLines(s: Script, at: nat, b: Words, y: Words)
    requires Holds(s, at, LinesOf(Inner(b, y))) && PlainCommand(y)
    ensures |LinesOf(Inner(b, y))| == 7 && |Lines(Inner(b, y).body)| == 4 && BreakIfAt(s, at + 2, y)
    ensures s.cmds[at] == LoopLine(false, b) && at + 7 <= |s.cmds| && s.cmds[at + 6] == [Done]
  {
    hide Holds;
    HoldsLoop(s, at, Inner(b, y));
    LinesCons(BreakIf(y), Nil);
    HoldsSplit(s, at + 2, LinesOf(BreakIf(y)), []);
    HoldsBranch(s, at + 2, BreakIf(y));
    BreakLines(Nil);
    HoldsOne(s, at + 4, [BreakName]);
  }

  /** The machine stands before a statement in a `then` part. */
  predicate InThen(s: Script, c: Config) {
    && Ready(s, c) && c.p.iendx > 0 && c.p.ItefTop().state == ItefThen && c.p.ie[c.p.iendx - 1].state != ItefIf
  }

  lemma EnterInner(s: Script, c: Config, b: Words, y: Words) returns (e: Config)
    requires InThen(s, c) && Holds(s, c.p.pos, LinesOf(Inner(b, y))) && FitsStmt(c.p, Inner(b, y))
    requires PlainCommand(b) && PlainCommand(y) && c.results != [] && !c.results[0]
    ensures c.p.InRange() && Reaches(s, c, e) && InThenLoop(s, e) && Did(c, e, c.p.pos + 2, Event(c.p.pos, b, false))
    ensures c.p.lpndx + 1 < |c.p.lp|
    ensures e.p == PushedLoop(c.p, LoopSlot(LoopDo, true, c.p.iendx, c.p.pos)).(pos := c.p.pos + 2, fail := false)
  {
    hide Step; hide Reaches; hide Holds; hide LinesOf; hide LoopLine;
    InnerShape(c.p, b, y);
    e := EnterLoop(s, c, Inner(b, y));
  }

  /** The inner loop: it may leave the if-stack one lower. */
  lemma {:induction false} RunInner(s: Script, c: Config, b: Words, y: Words) returns (d: Config)
    requires InThen(s, c) && Holds(s, c.p.pos, LinesOf(Inner(b, y))) && FitsStmt(c.p, Inner(b, y))
    requires PlainCommand(b) && PlainCommand(y)
    ensures c.p.InRange() && Reaches(s, c, d)
    ensures Nearly(s, c, d, StmtMeaning(s, c, Inner(b, y)), c.p.pos + 7)
    decreases |c.results|
  {
    hide Step; hide Reaches; hide Holds; hide LinesOf; hide LoopLine; hide IfLine; hide InterpretStmt; hide Interpret;
    var st := Inner(b, y);
    InnerMeaning(s, c, b, y);
    InnerLines(s, c.p.pos, b, y);
    InnerShape(c.p, b, y);
    if c.results == [] || c.results[0] {
      d := RunLoopOut(s, c, st);
      MatchesNearly(s, c, d, StmtMeaning(s, c, st), c.p.pos + 7);
    } else {
      var e := EnterInner(s, c, b, y);
      if e.results == [] {
        StepIf(s, e, false, y);
        d := e;
      } else if e.results[0] {
        d := InnerAgain(s, c, e, b, y);
      } else {
        d := InnerBreaks(s, c, e, b, y);
      }
    }
  }

  lemma {:induction false} InnerAgain(s: Script, c: Config, e: Config, b: Words, y: Words) returns (d: Config)
    requires InThen(s, c) && Holds(s, c.p.pos, LinesOf(Inner(b, y))) && FitsStmt(c.p, Inner(b, y))
    requires PlainCommand(b) && PlainCommand(y) && c.results != [] && !c.results[0]
    requires Reaches(s, c, e) && InThenLoop(s, e) && Did(c, e, c.p.pos + 2, Event(c.p.pos, b, false))
    requires c.p.lpndx + 1 < |c.p.lp|
    requires e.p == PushedLoop(c.p, LoopSlot(LoopDo, true, c.p.iendx, c.p.pos)).(pos := c.p.pos + 2, fail := false)
    requires e.results != [] && e.results[0]
    ensures Reaches(s, c, d) && Nearly(s, c, d, StmtMeaning(s, c, Inner(b, y)), c.p.pos + 7)
    decreases |c.results|, 0
  {
    hide Step; hide Reaches; hide Holds; hide LinesOf; hide LoopLine; hide IfLine; hide InterpretStmt; hide Interpret;
    var st := Inner(b, y);
    InnerMeaning(s, c, b, y);
    InnerLines(s, c.p.pos, b, y);
    var t := PassBreakIf(s, e, y);
    ReachesTrans(s, c, e, t);
    var u := LeaveInner(s, c, t, st, e.p.LoopTop());
    ReachesTrans(s, c, t, u);
    d := RunInner(s, u, b, y);
    ReachesTrans(s, c, u, d);
    assert c.results[1..][1..] == c.results[2..];
    var es := [Event(c.p.pos, b, false), Event(c.p.pos + 2, y, true)];
    assert u.trace == c.trace + es;
    NearlyAfter(s, c, u, d, StmtMeaning(s, u, st), es, c.p.pos + 7);
  }

  lemma NearlyAfter(s: Script, c: Config, u: Config, d: Config, m: Meaning, es: seq<Event>, end: nat)
    requires SameStacks(c.p, u.p) && u.trace == c.trace + es && Nearly(s, u, d, m, end)
    ensures Nearly(s, c, d, m.After(es), end)
  {
    hide Step;
  }

  lemma LeaveInner(s: Script, c: Config, t: Config, st: Stmt, slot: LoopSlot) returns (u: Config)
    requires InThen(s, c) && !t.halted && st.Loop? && Holds(s, c.p.pos, LinesOf(st)) && FitsStmt(c.p, st)
    requires c.p.lpndx + 1 < |c.p.lp| && slot == LoopSlot(LoopDo, true, c.p.iendx, c.p.pos)
    requires SameStacks(PushedLoop(c.p, slot), t.p) && t.p.pos == c.p.pos + 2 + |Lines(st.body)| && !t.p.fail
    ensures t.p.InRange() && Reaches(s, t, u) && InThen(s, u) && SameStacks(c.p, u.p) && FitsStmt(u.p, st)
    ensures ModeAt(s, u.p) == ModeAt(s, c.p) && !u.p.fail
    ensures u.p.pos == c.p.pos && u == t.(p := u.p, ret := false)
  {
    hide Step; hide Reaches; hide Holds; hide LinesOf;
    u := LeaveBody(s, c.p, t, st, slot);
  }

  lemma InnerBreaks(s: Script, c: Config, e: Config, b: Words, y: Words) returns (d: Config)
    requires InThen(s, c) && Holds(s, c.p.pos, LinesOf(Inner(b, y))) && PlainCommand(y) && c.results != []
      && !c.results[0]
    requires Reaches(s, c, e) && InThenLoop(s, e) && Did(c, e, c.p.pos + 2, Event(c.p.pos, b, false))
    requires c.p.lpndx + 1 < |c.p.lp|
    requires e.p == PushedLoop(c.p, LoopSlot(LoopDo, true, c.p.iendx, c.p.pos)).(pos := c.p.pos + 2, fail := false)
    requires e.results != [] && !e.results[0]
    ensures Reaches(s, c, d) && Nearly(s, c, d, StmtMeaning(s, c, Inner(b, y)), c.p.pos + 7)
  {
    hide Step; hide Reaches; hide Holds; hide LinesOf; hide LoopLine; hide IfLine; hide InterpretStmt; hide Interpret;
    InnerMeaning(s, c, b, y);
    InnerLines(s, c.p.pos, b, y);
    var t := TakeBreakIf(s, e, y);
    ReachesTrans(s, c, e, t);
    StepDone(s, t);
    ReachesNext(s, c, t);
    d := Step(s, t);
    assert c.results[1..][1..] == c.results[2..];
    assert d.trace == c.trace + [Event(c.p.pos, b, false), Event(c.p.pos + 2, y, false)];
    assert Lowered(c.p, d.p);
  }

  /** An `if` without `else`: what it means, in terms of its `then` part. */
  lemma OnlyThenMeaning(s: Script, c: Config, x: Words, st: Stmt)
    ensures
      var m, rs, at := StmtMeaning(s, c, Branch(false, x, Cons(st, Nil), false, Nil)), c.results, c.p.pos;
      && (rs == [] ==> m == Meaning([], [], Waiting, c.p.fail, c.ret))
      && (rs != [] && rs[0] ==> m == Meaning([Event(at, x, true)], rs[1..], Completed, false, false))
      && (rs != [] && !rs[0] ==>
        var m' := InterpretStmt(st, at + 2, false, false, ModeAt(s, c.p), rs[1..]);
        m == m'.After([Event(at, x, false)]).(ret := m'.end != Completed && m'.ret))
  {
    hide InterpretStmt; hide LinesOf;
    var br, rs, at := Branch(false, x, Cons(st, Nil), false, Nil), c.results, c.p.pos;
    MeaningBranch(s, c, br);
    if rs != [] {
      OneMeaning(st, at + 2, ModeAt(s, c.p), rs[1..]);
      var es := [Event(at, x, rs[0])];
      assert es + [] == es;
    }
  }

  lemma OneMeaning(st: Stmt, at: nat, mode: Mode, rs: seq<bool>)
    ensures
      var m, m' := Interpret(Cons(st, Nil), at, false, false, mode, rs), InterpretStmt(st, at, false, false, mode, rs);
      m == m'
  {
    hide InterpretStmt;
    var m' := InterpretStmt(st, at, false, false, mode, rs);
    assert m'.events + [] == m'.events;
  }

  lemma OnlyThenLines(s: Script, at: nat, x: Words, st: Stmt)
    requires Holds(s, at, LinesOf(Branch(false, x, Cons(st, Nil), false, Nil)))
    ensures
      var n := |LinesOf(st)|;
      && |LinesOf(Branch(false, x, Cons(st, Nil), false, Nil))| == n + 3 && at + n + 3 <= |s.cmds|
      && |Lines(Cons(st, Nil))| == n
      && s.cmds[at] == IfLine(false, x) && s.cmds[at + 1] == [Then] && s.cmds[at + n + 2] == [Fi]
      && Holds(s, at + 2, LinesOf(st)) && Holds(s, at + 2, Lines(Cons(st, Nil)))
  {
    hide Holds; hide LinesOf;
    HoldsBranch(s, at, Branch(false, x, Cons(st, Nil), false, Nil));
    LinesCons(st, Nil);
    HoldsSplit(s, at + 2, LinesOf(st), []);
  }

  /** An `if` whose test fails is passed over. */
  lemma PassOnlyThen(s: Script, c: Config, x: Words, st: Stmt) returns (d: Config)
    requires Ready(s, c) && c.results != [] && c.results[0] && PlainCommand(x) && WellFormedStmt(st)
    requires Holds(s, c.p.pos, LinesOf(Branch(false, x, Cons(st, Nil), false, Nil)))
    requires FitsStmt(c.p, Branch(false, x, Cons(st, Nil), false, Nil))
    ensures c.p.InRange() && Reaches(s, c, d) && SameStacks(c.p, d.p)
    ensures Did(c, d, c.p.pos + |LinesOf(st)| + 3, Event(c.p.pos, x, true))
  {
    hide Step; hide Reaches; hide Holds; hide LinesOf; hide IfLine; hide SameStacks; hide Fits; hide FitsStmt;
    hide WellFormed; hide WellFormedStmt;
    var br := Branch(false, x, Cons(st, Nil), false, Nil);
    OnlyThenLines(s, c.p.pos, x, st);
    OnlyThenWell(x, st);
    FitsHere(c.p, x, st);
    var e := EnterBranch(s, c, br);
    FitsPart(c.p, e.p, x, st);
    var t := Skip(s, e, Cons(st, Nil));
    ReachesTrans(s, c, e, t);
    PoppedOff(c.p, e.p, t.p, ItefSlot(ItefThen, true, false, false));
    StepFi(s, t);
    ReachesNext(s, c, t);
    d := Step(s, t);
  }

  lemma FitsHere(p: Parser, x: Words, st: Stmt)
    requires FitsStmt(p, Branch(false, x, Cons(st, Nil), false, Nil))
    ensures p.iendx + 1 < |p.ie|
  {
  }

  lemma OnlyThenWell(x: Words, st: Stmt)
    requires PlainCommand(x) && WellFormedStmt(st)
    ensures WellFormed(Cons(st, Nil)) && WellFormedStmt(Branch(false, x, Cons(st, Nil), false, Nil))
  {
  }

  lemma PoppedOff(p: Parser, q: Parser, r: Parser, slot: ItefSlot)
    requires p.InRange() && p.iendx + 1 < |p.ie| && !p.AwaitsDo()
    requires slot.state == ItefThen && q == PushBranch(p, slot).(pos := q.pos, fail := q.fail)
    requires SameStacks(q, r)
    ensures r.InRange() && r.iendx > 0 && r.ItefTop().state == ItefThen && !r.AwaitsDo()
    ensures forall k: nat :: SameStacks(p, PopBranch(r).(pos := k))
  {
  }

  lemma FitsPart(p: Parser, q: Parser, x: Words, st: Stmt)
    requires FitsStmt(p, Branch(false, x, Cons(st, Nil), false, Nil)) && q.iendx == p.iendx + 1 && q.lpndx == p.lpndx
    requires |p.ie| == |q.ie| && |p.lp| == |q.lp|
    ensures Fits(q, Cons(st, Nil)) && FitsStmt(q, st)
  {
    assert LoopDepth(Cons(st, Nil)) == LoopDepthOf(st) && BranchDepth(Cons(st, Nil)) == BranchDepthOf(st);
  }

  lemma MiddleShape(x: Words, b: Words, y: Words)
    requires PlainCommand(x) && PlainCommand(b) && PlainCommand(y)
    ensures WellFormedStmt(Inner(b, y)) && WellFormedStmt(Middle(x, b, y))
  {
    assert WellFormed(Cons(BreakLoop, Nil));
    assert WellFormedStmt(BreakIf(y));
    assert WellFormed(Cons(BreakIf(y), Nil));
  }

  /** The middle: it may leave the if-stack one lower, too. */
  lemma RunMiddle(s: Script, c: Config, x: Words, b: Words, y: Words) returns (d: Config)
    requires InThen(s, c) && Holds(s, c.p.pos, LinesOf(Middle(x, b, y))) && FitsStmt(c.p, Middle(x, b, y))
    requires PlainCommand(x) && PlainCommand(b) && PlainCommand(y)
    ensures c.p.InRange() && Reaches(s, c, d)
    ensures Nearly(s, c, d, StmtMeaning(s, c, Middle(x, b, y)), c.p.pos + 10)
  {
    hide Step; hide Reaches; hide Holds; hide LinesOf; hide IfLine; hide InterpretStmt; hide Interpret; hide Inner;
    OnlyThenMeaning(s, c, x, Inner(b, y));
    OnlyThenLines(s, c.p.pos, x, Inner(b, y));
    InnerLines(s, c.p.pos + 2, b, y);
    MiddleShape(x, b, y);
    if c.results == [] {
      StepIf(s, c, false, x);
      ReachesRefl(s, c);
      d := c;
    } else if c.results[0] {
      d := PassOnlyThen(s, c, x, Inner(b, y));
    } else {
      var e := EnterBranch(s, c, Middle(x, b, y));
      FitsPart(c.p, e.p, x, Inner(b, y));
      var t := RunInner(s, e, b, y);
      ReachesTrans(s, c, e, t);
      var m := StmtMeaning(s, e, Inner(b, y));
      d := t;
      if m.end == Completed {
        d := CloseMiddle(s, c, e, t, e.p.ItefTop());
        ReachesTrans(s, c, t, d);
      }
    }
  }

  /** The `fi` behind the inner loop. */
  lemma CloseMiddle(s: Script, c: Config, e: Config, t: Config, slot: ItefSlot) returns (d: Config)
    requires InThen(s, c) && c.p.iendx + 1 < |c.p.ie| && !t.halted && t.p.InRange()
    requires slot.state == ItefThen && SameStacks(PushBranch(c.p, slot), e.p)
    requires SameStacks(e.p, t.p) || Lowered(e.p, t.p)
    requires t.p.pos < |s.cmds| && s.cmds[t.p.pos] == [Fi]
    ensures Reaches(s, t, d) && d.p.InRange() && d == t.(p := d.p, ret := false)
    ensures d.p.pos == t.p.pos + 1 && d.p.fail == t.p.fail && (SameStacks(c.p, d.p) || Lowered(c.p, d.p))
  {
    hide Step; hide Reaches;
    StepFi(s, t);
    ReachesStep(s, t);
    d := Step(s, t);
  }

  lemma OuterMeaning(s: Script, c: Config, a: Words, x: Words, b: Words, y: Words)
    ensures
      var m, rs, at := StmtMeaning(s, c, Outer(a, x, b, y)), c.results, c.p.pos;
      && (rs == [] ==> m == Meaning([], [], Waiting, c.p.fail, c.ret))
      && (rs != [] && rs[0] ==> m == Meaning([Event(at, a, true)], rs[1..], Completed, false, false))
      && (rs != [] && !rs[0] ==>
        var m' := InterpretStmt(Middle(x, b, y), at + 2, false, false, Mode(s.ignore, true), rs[1..]);
        && (m'.end == Waiting ==> m == m'.After([Event(at, a, false)]))
        && (m'.end == Completed ==> m == Meaning([Event(at, a, false)] + m'.events, m'.rest, Completed, false, false)))
  {
    hide LinesOf; hide Middle;
    var rs, at := c.results, c.p.pos;
    if rs != [] && !rs[0] {
      var mode, mid := Mode(s.ignore, true), Middle(x, b, y);
      var m' := InterpretStmt(mid, at + 2, false, false, mode, rs[1..]);
      ThenBreak(mid, at + 2, mode, rs[1..]);
      hide Interpret;
    }
  }

  lemma ThenBreak(st: Stmt, at: nat, mode: Mode, rs: seq<bool>)
    requires mode.inLoop
    ensures
      var m := InterpretStmt(st, at, false, false, mode, rs);
      Interpret(Cons(st, Cons(BreakLoop, Nil)), at, false, false, mode, rs) ==
        if m.end != Completed then m else Meaning(m.events, m.rest, Broken, false, false)
  {
    var m := InterpretStmt(st, at, false, false, mode, rs);
    if m.end == Completed {
      var at' := at + |LinesOf(st)|;
      assert InterpretStmt(BreakLoop, at', m.fail, m.ret, mode, m.rest) == Meaning([], m.rest, Broken, false, false);
      assert Interpret(Cons(BreakLoop, Nil), at', m.fail, m.ret, mode, m.rest) ==
        Meaning([], m.rest, Broken, false, false);
      assert m.events + [] == m.events;
      hide InterpretStmt;
    }
  }

  lemma OuterLines(s: Script, at: nat, a: Words, x: Words, b: Words, y: Words)
    requires Holds(s, at, LinesOf(Outer(a, x, b, y))) && PlainCommand(y)
    ensures |LinesOf(Outer(a, x, b, y))| == 14 && |Lines(Outer(a, x, b, y).body)| == 11 && at + 14 <= |s.cmds|
    ensures Holds(s, at + 2, LinesOf(Middle(x, b, y))) && s.cmds[at + 12] == [BreakName]
      && s.cmds[at] == LoopLine(false, a)
  {
    hide Holds; hide LinesOf;
    var mid := Middle(x, b, y);
    HoldsLoop(s, at, Outer(a, x, b, y));
    LinesCons(mid, Cons(BreakLoop, Nil));
    HoldsSplit(s, at + 2, LinesOf(mid), Lines(Cons(BreakLoop, Nil)));
    OnlyThenLines(s, at + 2, x, Inner(b, y));
    InnerLines(s, at + 4, b, y);
    BreakLines(Nil);
    HoldsSplit(s, at + 12, [[BreakName]], []);
    HoldsOne(s, at + 12, [BreakName]);
  }

  /** Below the `then` part commands are enabled as well. */
  predicate EnabledBelow(p: Parser) {
    p.InRange() && p.iendx > 0 && p.(iendx := p.iendx - 1).ItefEnabled()
  }

  lemma OuterShape(p: Parser, a: Words, x: Words, b: Words, y: Words)
    requires PlainCommand(a) && PlainCommand(x) && PlainCommand(b) && PlainCommand(y) && FitsStmt(p, Outer(a, x, b, y))
    ensures WellFormedStmt(Outer(a, x, b, y)) && NoDirectLoop(Outer(a, x, b, y).body)
    ensures p.lpndx + 1 < |p.lp|
    ensures forall q: Parser :: q.iendx == p.iendx && q.lpndx == p.lpndx + 1 && |q.ie| == |p.ie| && |q.lp| == |p.lp| ==>
      FitsStmt(q, Middle(x, b, y))
  {
    hide Middle;
    var mid := Middle(x, b, y);
    MiddleShape(x, b, y);
    assert WellFormed(Cons(BreakLoop, Nil));
    assert WellFormed(Cons(mid, Cons(BreakLoop, Nil)));
    var body := Cons(mid, Cons(BreakLoop, Nil));
    assert LoopDepth(body) >= LoopDepthOf(mid) && BranchDepth(body) >= BranchDepthOf(mid);
    assert LoopDepthOf(Outer(a, x, b, y)) == 1 + LoopDepth(body);
    MiddleIsBranch(x, b, y);
    assert NoDirectLoop(Cons(BreakLoop, Nil)) && NoDirectLoop(body);
  }

  lemma MiddleIsBranch(x: Words, b: Words, y: Words)
    ensures Middle(x, b, y).Branch?
  {
  }

  /** The outer loop ends with the stacks as they were. */
  lemma RunOuter(s: Script, c: Config, a: Words, x: Words, b: Words, y: Words) returns (d: Config)
    requires InThen(s, c) && EnabledBelow(c.p)
    requires Holds(s, c.p.pos, LinesOf(Outer(a, x, b, y))) && FitsStmt(c.p, Outer(a, x, b, y))
    requires PlainCommand(a) && PlainCommand(x) && PlainCommand(b) && PlainCommand(y)
    ensures Reaches(s, c, d)
    ensures Matches(s, c, d, StmtMeaning(s, c, Outer(a, x, b, y)), c.p.pos + 14)
  {
    hide Step; hide Reaches; hide Holds; hide LinesOf; hide LoopLine; hide InterpretStmt; hide Interpret; hide Middle;
    var st := Outer(a, x, b, y);
    OuterShape(c.p, a, x, b, y);
    OuterLines(s, c.p.pos, a, x, b, y);
    if c.results == [] || c.results[0] {
      d := RunLoopOut(s, c, st);
    } else {
      d := OuterPass(s, c, a, x, b, y);
    }
  }

  lemma OuterPass(s: Script, c: Config, a: Words, x: Words, b: Words, y: Words) returns (d: Config)
    requires InThen(s, c) && EnabledBelow(c.p) && c.results != [] && !c.results[0]
    requires Holds(s, c.p.pos, LinesOf(Outer(a, x, b, y))) && FitsStmt(c.p, Outer(a, x, b, y))
    requires PlainCommand(a) && PlainCommand(x) && PlainCommand(b) && PlainCommand(y)
    ensures Reaches(s, c, d)
    ensures Matches(s, c, d, StmtMeaning(s, c, Outer(a, x, b, y)), c.p.pos + 14)
  {
    hide Step; hide Reaches; hide Holds; hide LinesOf; hide LoopLine; hide InterpretStmt; hide Interpret; hide Middle;
    hide SameStacks; hide Lowered;
    var st := Outer(a, x, b, y);
    OuterShape(c.p, a, x, b, y);
    OuterLines(s, c.p.pos, a, x, b, y);
    OuterMeaning(s, c, a, x, b, y);
    var e := EnterLoop(s, c, st);
    var t := RunMiddle(s, e, x, b, y);
    ReachesTrans(s, c, e, t);
    var m, es := StmtMeaning(s, e, Middle(x, b, y)), [Event(c.p.pos, a, false)];
    assert c.trace + es + m.events == c.trace + (es + m.events);
    if m.end == Completed {
      var v := OuterBreak(s, e, t);
      ReachesTrans(s, c, t, v);
      LoopOff(c.p, e.p, v.p);
      d := LeaveBody(s, c.p, v, st, e.p.LoopTop().(enable := false));
      SameInRange(c.p, d.p);
      ReachesTrans(s, c, v, d);
    } else {
      d := t;
    }
  }

  lemma SameInRange(p: Parser, q: Parser)
    requires SameStacks(p, q)
    ensures p.InRange() && q.InRange()
  {
  }

  lemma LoopOff(p: Parser, q: Parser, r: Parser)
    requires p.InRange() && p.lpndx + 1 < |p.lp| && !p.AwaitsThen()
    requires q == PushedLoop(p, LoopSlot(LoopDo, true, p.iendx, p.pos)).(pos := q.pos, fail := q.fail)
    requires SameStacks(Switched(q), r)
    ensures SameStacks(PushedLoop(p, LoopSlot(LoopDo, false, p.iendx, p.pos)), r)
    ensures !r.AwaitsDo() && !r.AwaitsThen()
  {
  }

  /** The `break` of the outer loop puts the if-stack right. */
  lemma OuterBreak(s: Script, e: Config, t: Config) returns (v: Config)
    requires InThen(s, e) && EnabledBelow(e.p) && InLoop(e.p) && e.p.LoopTop().iendx == e.p.iendx
    requires !t.halted && t.p.InRange() && (SameStacks(e.p, t.p) || Lowered(e.p, t.p))
    requires t.p.pos < |s.cmds| && s.cmds[t.p.pos] == [BreakName]
    ensures Reaches(s, t, v) && SameStacks(Switched(e.p), v.p)
    ensures v.p.pos == t.p.pos + 1 && !v.p.fail && v == t.(p := v.p, ret := false)
  {
    hide Step; hide Reaches;
    StepBreak(s, t);
    ReachesStep(s, t);
    v := Step(s, t);
  }

  /** The script is not regular. */
  lemma NotRegular(z: Words, a: Words, x: Words, b: Words, y: Words)
    ensures !Regular(Rescued(z, a, x, b, y), false)
  {
    assert !NoDirectBreak(Cons(BreakLoop, Nil));
    assert !RegularStmt(BreakIf(y), true);
    assert !Regular(Cons(BreakIf(y), Nil), true);
    assert !RegularStmt(Inner(b, y), true);
    assert !Regular(Cons(Inner(b, y), Nil), true);
    assert !RegularStmt(Middle(x, b, y), true);
    assert !Regular(Outer(a, x, b, y).body, true);
    assert !RegularStmt(Outer(a, x, b, y), false);
    assert !Regular(Cons(Outer(a, x, b, y), Nil), false);
  }

  /** From the start of the script to its rest. */
  lemma RunRescued(s: Script, c: Config, z: Words, a: Words, x: Words, b: Words, y: Words) returns (d: Config)
    requires Ready(s, c) && c.p.ItefTop().state == ItefNormal && !InLoop(c.p)
    requires Holds(s, c.p.pos, LinesOf(Rescued(z, a, x, b, y).head)) && FitsStmt(c.p, Rescued(z, a, x, b, y).head)
    requires PlainCommand(z) && PlainCommand(a) && PlainCommand(x) && PlainCommand(b) && PlainCommand(y)
    ensures Reaches(s, c, d)
    ensures Matches(s, c, d, StmtMeaning(s, c, Rescued(z, a, x, b, y).head), c.p.pos + 17)
  {
    hide Step; hide Reaches; hide Holds; hide LinesOf; hide IfLine; hide InterpretStmt; hide Interpret; hide Outer;
    var st, br := Outer(a, x, b, y), Rescued(z, a, x, b, y).head;
    OnlyThenMeaning(s, c, z, st);
    OnlyThenLines(s, c.p.pos, z, st);
    OuterLines(s, c.p.pos + 2, a, x, b, y);
    FitsPart(c.p, c.p.(iendx := c.p.iendx + 1), z, st);
    OuterShape(c.p.(iendx := c.p.iendx + 1), a, x, b, y);
    OnlyThenWell(z, st);
    if c.results == [] {
      StepIf(s, c, false, z);
      ReachesRefl(s, c);
      d := c;
    } else if c.results[0] {
      d := PassOnlyThen(s, c, z, st);
    } else {
      d := TakeRescued(s, c, z, a, x, b, y);
    }
  }

  lemma TakeRescued(s: Script, c: Config, z: Words, a: Words, x: Words, b: Words, y: Words) returns (d: Config)
    requires Ready(s, c) && c.p.ItefTop().state == ItefNormal && c.results != [] && !c.results[0]
    requires Holds(s, c.p.pos, LinesOf(Rescued(z, a, x, b, y).head)) && FitsStmt(c.p, Rescued(z, a, x, b, y).head)
    requires WellFormedStmt(Rescued(z, a, x, b, y).head)
    requires PlainCommand(z) && PlainCommand(a) && PlainCommand(x) && PlainCommand(b) && PlainCommand(y)
    ensures Reaches(s, c, d)
    ensures Matches(s, c, d, StmtMeaning(s, c, Rescued(z, a, x, b, y).head), c.p.pos + 17)
  {
    hide Step; hide Reaches; hide Holds; hide LinesOf; hide IfLine; hide InterpretStmt; hide Interpret; hide Outer;
    hide Matches; hide SameStacks; hide InThen; hide EnabledBelow;
    var st, br := Outer(a, x, b, y), Rescued(z, a, x, b, y).head;
    OnlyThenMeaning(s, c, z, st);
    OnlyThenLines(s, c.p.pos, z, st);
    OuterLines(s, c.p.pos + 2, a, x, b, y);
    var e := EnterBranch(s, c, br);
    FitsPart(c.p, e.p, z, st);
    EnteredThen(s, c, e, e.p.ItefTop());
    var t := RunOuter(s, e, a, x, b, y);
    ReachesTrans(s, c, e, t);
    var m := StmtMeaning(s, e, st);
    OuterEnds(s, e, a, x, b, y);
    d := CloseRescued(s, e, t, m, c.p.pos + 16);
    ReachesTrans(s, c, t, d);
    BranchMatches(s, c, e, d, br, m, c.p.pos + 17);
  }

  lemma EnteredThen(s: Script, c: Config, e: Config, slot: ItefSlot)
    requires Ready(s, c) && c.p.ItefTop().state == ItefNormal && c.p.iendx + 1 < |c.p.ie|
    requires slot.state == ItefThen && !slot.ifcond && !slot.disabled
    requires e.p == PushBranch(c.p, slot).(pos := e.p.pos, fail := e.p.fail) && !e.halted
    ensures InThen(s, e) && EnabledBelow(e.p) && ModeAt(s, e.p) == ModeAt(s, c.p)
  {
  }

  lemma CloseRescued(s: Script, e: Config, t: Config, m: Meaning, mid: nat) returns (d: Config)
    requires InThen(s, e) && Matches(s, e, t, m, mid) && m.end != Broken && mid < |s.cmds| && s.cmds[mid] == [Fi]
    ensures t.p.InRange() && Reaches(s, t, d)
    ensures Matches(s, e.(p := PopBranch(e.p)), d, m.(ret := m.end != Completed && m.ret), mid + 1)
  {
    hide Step; hide Reaches;
    if m.end == Completed {
      StepFi(s, t);
      ReachesStep(s, t);
      d := Step(s, t);
      PartMatches(s, e, t, d, m, mid, mid + 1);
    } else {
      ReachesRefl(s, t);
      d := t;
      PartStops(s, e, t, m, mid, mid + 1);
      assert m.(ret := m.end != Completed && m.ret) == m;
    }
  }

  lemma OuterEnds(s: Script, c: Config, a: Words, x: Words, b: Words, y: Words)
    ensures StmtMeaning(s, c, Outer(a, x, b, y)).end != Broken
  {
    hide Interpret;
    LoopEnds(Outer(a, x, b, y), c.p.pos, c.p.fail, c.ret, ModeAt(s, c.p), c.results);
  }

  lemma {:induction false} LoopEnds(st: Stmt, at: nat, fail: bool, ret: bool, mode: Mode, rs: seq<bool>)
    requires st.Loop?
    ensures InterpretStmt(st, at, fail, ret, mode, rs).end != Broken
    decreases |rs|
  {
    hide Interpret;
    if rs != [] {
      var m := Interpret(st.body, at + 2, false, false, mode.(inLoop := true), rs[1..]);
      LoopEnds(st, at, m.fail, false, mode, m.rest);
    }
  }

  /** The script is not regular, and yet it means what its tree says, for all results. */
  lemma RescuedAgrees(s: Script, p: Parser, z: Words, a: Words, x: Words, b: Words, y: Words, rs: seq<bool>)
    requires s.cmds == Lines(Rescued(z, a, x, b, y)) && Idle(p) && Fits(p, Rescued(z, a, x, b, y)) && !s.ignore
    requires PlainCommand(z) && PlainCommand(a) && PlainCommand(x) && PlainCommand(b) && PlainCommand(y)
    ensures !Regular(Rescued(z, a, x, b, y), false) && Agrees(s, Rescued(z, a, x, b, y), p, rs)
  {
    hide Steps; hide ParseCommand; hide Interpret; hide InterpretStmt; hide LinesOf; hide Rescued;
    var t := Rescued(z, a, x, b, y);
    NotRegular(z, a, x, b, y);
    RescuedParts(s, p, z, a, x, b, y);
    var c := Begin(p, rs);
    var d := RunRescued(s, c, z, a, x, b, y);
    MeaningOne(s, c, t);
    ReachesNext(s, c, d);
    var n: nat :| Steps(s, c, n) == Step(s, d);
    assert RestsAs(s, p, Steps(s, c, n), Meant(s, t, p, rs));
  }

  lemma RescuedParts(s: Script, p: Parser, z: Words, a: Words, x: Words, b: Words, y: Words)
    requires s.cmds == Lines(Rescued(z, a, x, b, y)) && Fits(p, Rescued(z, a, x, b, y)) && PlainCommand(y)
    ensures
      var t := Rescued(z, a, x, b, y);
      && t.Cons? && t.tail == Nil && Holds(s, 0, LinesOf(t.head)) && FitsStmt(p, t.head) && |s.cmds| == 17
  {
    hide LinesOf; hide Outer;
    var t := Rescued(z, a, x, b, y);
    FitsCons(p, t.head, Nil);
    LinesCons(t.head, Nil);
    assert s.cmds[0..|s.cmds|] == s.cmds;
    OnlyThenLines(s, 0, z, Outer(a, x, b, y));
    OuterLines(s, 2, a, x, b, y);
  }

  lemma MeaningOne(s: Script, c: Config, t: Block)
    requires t.Cons? && t.tail == Nil
    ensures BlockMeaning(s, c, t) == StmtMeaning(s, c, t.head)
  {
    hide InterpretStmt; hide LinesOf;
    assert t == Cons(t.head, Nil);
    MeaningCons(s, c, t.head, Nil);
    var m := StmtMeaning(s, c, t.head);
    assert m.events + [] == m.events;
  }
}
