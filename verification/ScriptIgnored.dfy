/**
  A `break` below an `if` that does no harm when failures are ignored: the error at `fi` is
  passed over, and the `break` at the end clears the exit status again.  So
  `ScriptBreak.RefinesIffRegular` needs its condition that the script stops at failures.
*/
module ScriptIgnored {
  import opened ScriptMachine
  import opened ScriptTree
  import opened ScriptRefinement
  import opened ScriptExact
  import opened ScriptRescue

  const EMPTY := ItefSlot(ItefNormal, false, false, false)

  /** while <b> / do / if <y> / then / break / fi / done / break */
  function Ignored(b: Words, y: Words): (t: Block) {
    Cons(Inner(b, y), Cons(BreakLoop, Nil))
  }

  /** The machine stands before the loop, outside of everything, and each command has its own line. */
  predicate Outside(s: Script, c: Config) {
    && Ready(s, c) && s.ignore && c.p.iendx == 0 && c.p.ie[0] == EMPTY && !InLoop(c.p)
    && forall k :: 0 <= k < |s.cmds| ==> k in s.starts
  }

  /** The machine has done what `m` says, up to the exit status at the end. */
  predicate Roughly(s: Script, c: Config, d: Config, m: Meaning, end: nat) {
    && c.p.InRange() && d.p.InRange() && !d.halted && d.trace == c.trace + m.events && d.results == m.rest
    && (m.end == Completed ==> d.p.pos == end && SameStacks(c.p, d.p))
    && (m.end == Waiting ==> d.p.fail == m.fail && d.ret == m.ret && Step(s, d) == d)
    && (m.end == Completed || m.end == Waiting)
  }

  /** A `fi` outside of any `if`: the error is passed over. */
  lemma PassStrayFi(s: Script, c: Config)
    requires AtStatement(c) && s.ignore && c.p.iendx == 0 && c.p.ie[0] == EMPTY
    requires c.p.pos < |s.cmds| && s.cmds[c.p.pos] == [Fi] && (c.p.pos + 1 == |s.cmds| || c.p.pos + 1 in s.starts)
    ensures Step(s, c) == c.(p := c.p.(pos := c.p.pos + 1, fail := true), ret := true)
  {
    hide ParseCommand;
    var p := c.p.(pos := c.p.pos + 1);
    ParseStrayFi(p, c.p.pos);
    assert p.ie[0 := EMPTY] == p.ie;
  }

  lemma TakeBreak(s: Script, e: Config, y: Words) returns (d: Config)
    requires InLoopBody(s, e) && s.ignore && BreakIfAt(s, e.p.pos, y) && e.results != [] && !e.results[0]
    requires e.p.iendx == 0 && e.p.ie[0] == EMPTY && e.p.pos + 4 in s.starts
    ensures e.p.InRange() && d.p.InRange() && Reaches(s, e, d) && SameStacks(Switched(e.p), d.p)
    ensures d == Config(d.p, e.results[1..], e.trace + [Event(e.p.pos, y, false)], true, false)
    ensures d.p.pos == e.p.pos + 4
  {
    hide Step; hide Reaches; hide IfLine;
    var u := IfThen(s, e, y);
    StepBreak(s, u);
    ReachesNext(s, e, u);
    var v := Step(s, u);
    PassStrayFi(s, v);
    ReachesNext(s, e, v);
    d := Step(s, v);
  }

  /** The loop. */
  lemma {:induction false} RunIgnored(s: Script, c: Config, b: Words, y: Words) returns (d: Config)
    requires Outside(s, c) && Holds(s, c.p.pos, LinesOf(Inner(b, y))) && FitsStmt(c.p, Inner(b, y))
    requires PlainCommand(b) && PlainCommand(y)
    ensures c.p.InRange() && Reaches(s, c, d)
    ensures Roughly(s, c, d, StmtMeaning(s, c, Inner(b, y)), c.p.pos + 7)
    decreases |c.results|
  {
    hide Step; hide Reaches; hide Holds; hide LinesOf; hide LoopLine; hide IfLine; hide InterpretStmt; hide Interpret;
    var st := Inner(b, y);
    InnerMeaning(s, c, b, y);
    InnerLines(s, c.p.pos, b, y);
    InnerShape(c.p, b, y);
    if c.results == [] || c.results[0] {
      d := RunLoopOut(s, c, st);
    } else {
      var e := EnterLoop(s, c, st);
      assert InLoopBody(s, e);
      if e.results == [] {
        StepIf(s, e, false, y);
        d := e;
      } else if e.results[0] {
        d := Again(s, c, e, b, y);
      } else {
        d := BreakOut(s, c, e, b, y);
      }
    }
  }

  /** The machine has entered the body. */
  predicate Entered(s: Script, c: Config, e: Config, b: Words) {
    && Outside(s, c) && InLoopBody(s, e) && c.p.lpndx + 1 < |c.p.lp| && c.results != [] && !c.results[0]
    && e.p == PushedLoop(c.p, LoopSlot(LoopDo, true, 0, c.p.pos)).(pos := c.p.pos + 2, fail := false)
    && e == Config(e.p, c.results[1..], c.trace + [Event(c.p.pos, b, false)], false, false)
  }

  lemma {:induction false} Again(s: Script, c: Config, e: Config, b: Words, y: Words) returns (d: Config)
    requires Entered(s, c, e, b) && Reaches(s, c, e) && e.results != [] && e.results[0]
    requires Holds(s, c.p.pos, LinesOf(Inner(b, y))) && FitsStmt(c.p, Inner(b, y))
    requires PlainCommand(b) && PlainCommand(y)
    ensures c.p.InRange() && Reaches(s, c, d) && Roughly(s, c, d, StmtMeaning(s, c, Inner(b, y)), c.p.pos + 7)
    decreases |c.results|, 0
  {
    hide Step; hide Reaches; hide Holds; hide LinesOf; hide LoopLine; hide IfLine; hide InterpretStmt; hide Interpret;
    var st := Inner(b, y);
    InnerMeaning(s, c, b, y);
    InnerLines(s, c.p.pos, b, y);
    var t := PassBreakIf(s, e, y);
    ReachesTrans(s, c, e, t);
    var u := LeaveBody(s, c.p, t, st, e.p.LoopTop());
    ReachesTrans(s, c, t, u);
    assert Outside(s, u) && FitsStmt(u.p, st);
    d := RunIgnored(s, u, b, y);
    ReachesTrans(s, c, u, d);
    assert c.results[1..][1..] == c.results[2..];
    var es := [Event(c.p.pos, b, false), Event(c.p.pos + 2, y, true)];
    assert u.trace == c.trace + es;
    RoughlyAfter(s, c, u, d, StmtMeaning(s, u, st), es, c.p.pos + 7);
  }

  lemma RoughlyAfter(s: Script, c: Config, u: Config, d: Config, m: Meaning, es: seq<Event>, end: nat)
    requires SameStacks(c.p, u.p) && u.trace == c.trace + es && Roughly(s, u, d, m, end)
    ensures Roughly(s, c, d, m.After(es), end)
  {
    hide Step;
  }

  lemma BreakOut(s: Script, c: Config, e: Config, b: Words, y: Words) returns (d: Config)
    requires Entered(s, c, e, b) && Reaches(s, c, e) && e.results != [] && !e.results[0]
    requires Holds(s, c.p.pos, LinesOf(Inner(b, y))) && PlainCommand(y)
    ensures c.p.InRange() && Reaches(s, c, d) && Roughly(s, c, d, StmtMeaning(s, c, Inner(b, y)), c.p.pos + 7)
  {
    hide Step; hide Reaches; hide Holds; hide LinesOf; hide LoopLine; hide IfLine; hide InterpretStmt; hide Interpret;
    InnerMeaning(s, c, b, y);
    InnerLines(s, c.p.pos, b, y);
    var t := TakeBreak(s, e, y);
    ReachesTrans(s, c, e, t);
    d := LeaveBody(s, c.p, t, Inner(b, y), e.p.LoopTop().(enable := false));
    ReachesTrans(s, c, t, d);
    assert c.results[1..][1..] == c.results[2..];
    assert d.trace == c.trace + [Event(c.p.pos, b, false), Event(c.p.pos + 2, y, false)];
  }

  lemma NotRegularEither(b: Words, y: Words)
    ensures !Regular(Ignored(b, y), false)
  {
    assert !NoDirectBreak(Cons(BreakLoop, Nil));
    assert !RegularStmt(BreakIf(y), true);
    assert !Regular(Cons(BreakIf(y), Nil), true);
    assert !RegularStmt(Inner(b, y), false);
  }

  lemma IgnoredMeaning(s: Script, c: Config, b: Words, y: Words)
    requires !InLoop(c.p)
    ensures
      var m := StmtMeaning(s, c, Inner(b, y));
      BlockMeaning(s, c, Ignored(b, y)) == if m.end == Completed then m.(fail := false, ret := false) else m
  {
    hide InterpretStmt; hide LinesOf;
    MeaningCons(s, c, Inner(b, y), Cons(BreakLoop, Nil));
    var m := StmtMeaning(s, c, Inner(b, y));
    BreakOutside(c.p.pos + |LinesOf(Inner(b, y))|, m.fail, m.ret, s.ignore, m.rest);
    assert m.events + [] == m.events;
  }

  lemma BreakOutside(at: nat, fail: bool, ret: bool, ignore: bool, rs: seq<bool>)
    ensures Interpret(Cons(BreakLoop, Nil), at, fail, ret, Mode(ignore, false), rs) ==
      Meaning([], rs, Completed, false, false)
  {
    assert InterpretStmt(BreakLoop, at, fail, ret, Mode(ignore, false), rs) == Meaning([], rs, Completed, false, false);
  }

  /** The script is not regular, and yet it means what its tree says, for all results. */
  lemma IgnoredAgrees(s: Script, p: Parser, b: Words, y: Words, rs: seq<bool>)
    requires s.cmds == Lines(Ignored(b, y)) && s.ignore && forall k :: 0 <= k < |s.cmds| ==> k in s.starts
    requires Idle(p) && Fits(p, Ignored(b, y)) && p.ie[0] == EMPTY && PlainCommand(b) && PlainCommand(y)
    ensures !Regular(Ignored(b, y), false) && Agrees(s, Ignored(b, y), p, rs)
  {
    hide Step; hide Steps; hide Interpret; hide InterpretStmt; hide LinesOf; hide Lines; hide Fits; hide FitsStmt;
    NotRegularEither(b, y);
    IgnoredParts(s, p, b, y);
    var c := Begin(p, rs);
    var d := RunIgnored(s, c, b, y);
    IgnoredMeaning(s, c, b, y);
    var m := StmtMeaning(s, c, Inner(b, y));
    if m.end == Completed {
      StepBreak(s, d);
      ReachesNext(s, c, d);
      d := Step(s, d);
    }
    var meant := Meant(s, Ignored(b, y), p, rs);
    assert [] + meant.events == meant.events;
    Rests(s, p, c, d, meant);
    ReachesNext(s, c, d);
    var n := StepsTo(s, c, Step(s, d));
  }

  lemma IgnoredParts(s: Script, p: Parser, b: Words, y: Words)
    requires s.cmds == Lines(Ignored(b, y)) && Fits(p, Ignored(b, y)) && PlainCommand(y)
    ensures Holds(s, 0, LinesOf(Inner(b, y))) && FitsStmt(p, Inner(b, y)) && |s.cmds| == 8 && s.cmds[7] == [BreakName]
  {
    hide LinesOf;
    FitsCons(p, Inner(b, y), Cons(BreakLoop, Nil));
    LinesCons(Inner(b, y), Cons(BreakLoop, Nil));
    BreakLines(Nil);
    assert s.cmds[0..|s.cmds|] == s.cmds;
    HoldsSplit(s, 0, LinesOf(Inner(b, y)), Lines(Cons(BreakLoop, Nil)));
    InnerLines(s, 0, b, y);
    HoldsOne(s, 7, [BreakName]);
  }
}
