/**
  The line machine refines the recursive interpreter.
*/
module ScriptRefinement {
  import opened ScriptMachine
  import opened ScriptTree

  /** `q` agrees with `p` on both stacks up to their tops. */
  predicate SameStacks(p: Parser, q: Parser) {
    && p.InRange() && q.InRange()
    && |p.lp| == |q.lp| && |p.ie| == |q.ie|
    && p.lpndx == q.lpndx && p.iendx == q.iendx
    && (forall i :: 0 <= i <= p.lpndx ==> p.lp[i] == q.lp[i])
    && (forall i :: 0 <= i <= p.iendx ==> p.ie[i] == q.ie[i])
  }

  /** The machine stands before a statement: no loop waits for `do`, no branch for `then`. */
  predicate AtStatement(c: Config) {
    c.p.InRange() && !c.halted && !c.p.AwaitsDo() && !c.p.AwaitsThen()
  }

  /** There is a loop for `break` to leave. */
  predicate InLoop(p: Parser) {
    p.lpndx < |p.lp| && p.lp[p.lpndx].state == LoopDo
  }

  /** The loop on top is switched off. */
  function Switched(p: Parser): (q: Parser)
    requires p.InRange()
  {
    p.WithLoopTop(p.LoopTop().(enable := false))
  }

  /** The commands of the script from `at` on are `lines`. */
  predicate Holds(s: Script, at: nat, lines: seq<Words>) {
    at + |lines| <= |s.cmds| && s.cmds[at..at + |lines|] == lines
  }

  function PushBranch(p: Parser, slot: ItefSlot): (q: Parser)
    requires p.InRange() && p.iendx + 1 < |p.ie|
    ensures q.InRange()
  {
    p.(iendx := p.iendx + 1, ie := p.ie[p.iendx + 1 := slot])
  }

  function PopBranch(p: Parser): (q: Parser)
    requires p.InRange() && p.iendx > 0
    ensures q.InRange()
  {
    p.(iendx := p.iendx - 1)
  }

  function PushedLoop(p: Parser, slot: LoopSlot): (q: Parser)
    requires p.InRange() && p.lpndx + 1 < |p.lp|
    ensures q.InRange()
  {
    p.(lpndx := p.lpndx + 1, lp := p.lp[p.lpndx + 1 := slot])
  }

  lemma StepExecute(s: Script, c: Config, q: Parser, argv: Words)
    requires c.p.InRange() && !c.halted && c.p.pos < |s.cmds| && PlainCommand(argv) && q.InRange()
    requires ParseCommand(c.p.(pos := c.p.pos + 1), c.p.pos, s.cmds[c.p.pos]) == Execute(q, argv)
    ensures c.results == [] ==> Step(s, c) == c
    ensures c.results != [] ==>
      var (q', ret) := SaveResult(q, c.results[0]);
      Step(s, c) == Return(s, c, q', c.results[1..], c.trace + [Event(c.p.pos, argv, c.results[0])], ret)
  {
    hide ParseCommand;
    hide SaveResult;
    hide Return;
  }

  lemma StepFinish(s: Script, c: Config, q: Parser)
    requires c.p.InRange() && !c.halted && c.p.pos < |s.cmds|
    requires ParseCommand(c.p.(pos := c.p.pos + 1), c.p.pos, s.cmds[c.p.pos]) == Finished(q, false)
    ensures q.InRange() && Step(s, c) == c.(p := q, ret := false)
  {
    hide ParseCommand;
  }

  lemma ParsePlain(p: Parser, foffs: nat, ws: Words)
    requires p.InRange() && !p.AwaitsDo() && !p.AwaitsThen() && (PlainCommand(ws) || ws == [] || ws == [BreakName])
    ensures ParseCommand(p, foffs, ws) == if ws != [] && p.CmdEnabled() then Execute(p, ws) else Finished(p, false)
  {
  }

  lemma StepSkips(s: Script, c: Config)
    requires AtStatement(c) && c.p.pos < |s.cmds|
    requires s.cmds[c.p.pos] == []
      || (!c.p.CmdEnabled() && (PlainCommand(s.cmds[c.p.pos]) || s.cmds[c.p.pos] == [BreakName]))
    ensures Step(s, c) == c.(p := c.p.(pos := c.p.pos + 1), ret := false)
  {
    hide ParseCommand; hide Step;
    var p := c.p.(pos := c.p.pos + 1);
    ParsePlain(p, c.p.pos, s.cmds[c.p.pos]);
    StepFinish(s, c, p);
  }

  lemma StepRunsCommand(s: Script, c: Config)
    requires AtStatement(c) && c.p.CmdEnabled()
    requires c.p.pos < |s.cmds| && PlainCommand(s.cmds[c.p.pos])
    requires s.ignore ==> CommandsEndLines(s)
    ensures c.results == [] ==> Step(s, c) == c
    ensures c.results != [] ==>
      var r := c.results[0];
      Step(s, c) == Config(c.p.(pos := c.p.pos + 1, fail := r), c.results[1..],
                           c.trace + [Event(c.p.pos, s.cmds[c.p.pos], r)], r, r && !s.ignore)
  {
    hide ParseCommand; hide Step;
    var p := c.p.(pos := c.p.pos + 1);
    ParsePlain(p, c.p.pos, s.cmds[c.p.pos]);
    StepExecute(s, c, p, s.cmds[c.p.pos]);
  }

  /**
    When failures are ignored, the rest of the line is dropped behind a command that fails: the
    next command is the one that follows exactly if the failing one is the last on its line.
  */
  lemma FailureDropsLine(s: Script, c: Config)
    requires AtStatement(c) && c.p.CmdEnabled() && s.ignore && c.results != [] && c.results[0]
    requires c.p.pos < |s.cmds| && PlainCommand(s.cmds[c.p.pos])
    ensures
      var d, at := Step(s, c), c.p.pos;
      && d == Config(c.p.(pos := s.NextLine(at), fail := true), c.results[1..],
                     c.trace + [Event(at, s.cmds[at], true)], true, false)
      && (d.p.pos == at + 1 <==> at + 1 == |s.cmds| || at + 1 in s.starts)
  {
    hide ParseCommand; hide Step;
    var p := c.p.(pos := c.p.pos + 1);
    ParsePlain(p, c.p.pos, s.cmds[c.p.pos]);
    StepExecute(s, c, p, s.cmds[c.p.pos]);
  }

  /** `break` switches the loop off and takes the if-stack back to where the loop began. */
  lemma StepBreak(s: Script, c: Config)
    requires AtStatement(c) && c.p.CmdEnabled() && c.p.pos < |s.cmds| && s.cmds[c.p.pos] == [BreakName]
    requires InLoop(c.p) ==> c.p.LoopTop().iendx < |c.p.ie| && c.p.ie[c.p.LoopTop().iendx].state != ItefIf
    ensures Step(s, c) == c.(p := Break(c.p).(pos := c.p.pos + 1, fail := false), ret := false)
  {
    hide ParseCommand;
    ParsePlain(c.p.(pos := c.p.pos + 1), c.p.pos, [BreakName]);
  }

  lemma ParseIf(p: Parser, foffs: nat, inverted: bool, test: Words)
    requires p.InRange() && !p.AwaitsDo() && !p.AwaitsThen() && p.iendx + 1 < |p.ie| && PlainCommand(test)
    ensures ParseCommand(p, foffs, IfLine(inverted, test)) ==
      var q := PushBranch(p, ItefSlot(ItefIf, false, !p.CmdEnabled(), inverted));
      if p.CmdEnabled() then Execute(q, test) else Finished(q, false)
  {
    var ws := IfLine(inverted, test);
    if inverted {
      assert ws[1..][0] == Bang && ws[1..][1..] == test;
    } else {
      assert ws[1..] == test;
    }
  }

  lemma SaveBranchTest(p: Parser, slot: ItefSlot, failed: bool)
    requires p.InRange() && !p.AwaitsDo() && p.iendx + 1 < |p.ie| && slot.state == ItefIf
    ensures SaveResult(PushBranch(p, slot), failed)
         == (PushBranch(p, slot.(ifcond := slot.inverted != failed)).(fail := false), false)
  {
    var k, slot' := p.iendx + 1, slot.(ifcond := slot.inverted != failed);
    assert p.ie[k := slot][k := slot'] == p.ie[k := slot'];
  }

  lemma StepIf(s: Script, c: Config, inverted: bool, test: Words)
    requires AtStatement(c) && c.p.iendx + 1 < |c.p.ie|
    requires c.p.pos < |s.cmds| && s.cmds[c.p.pos] == IfLine(inverted, test) && PlainCommand(test)
    ensures c.p.CmdEnabled() && c.results == [] ==> Step(s, c) == c
    ensures c.p.CmdEnabled() && c.results != [] ==>
      var r := c.results[0];
      var slot := ItefSlot(ItefIf, inverted != r, false, inverted);
      Step(s, c) == Config(PushBranch(c.p, slot).(pos := c.p.pos + 1, fail := false),
                           c.results[1..], c.trace + [Event(c.p.pos, test, r)], false, false)
    ensures !c.p.CmdEnabled() ==>
      Step(s, c) == c.(p := PushBranch(c.p, ItefSlot(ItefIf, false, true, inverted)).(pos := c.p.pos + 1), ret := false)
  {
    hide ParseCommand;
    hide Step;
    hide SaveResult;
    hide IfLine;
    var p := c.p.(pos := c.p.pos + 1);
    ParseIf(p, c.p.pos, inverted, test);
    var q := PushBranch(p, ItefSlot(ItefIf, false, !p.CmdEnabled(), inverted));
    if p.CmdEnabled() {
      StepExecute(s, c, q, test);
      if c.results != [] {
        SaveBranchTest(p, q.ItefTop(), c.results[0]);
      }
    } else {
      StepFinish(s, c, q);
    }
  }

  lemma ParseThen(p: Parser, foffs: nat)
    requires p.InRange() && !p.AwaitsDo() && p.AwaitsThen()
    ensures ParseCommand(p, foffs, [Then]) == Finished(p.WithItefTop(p.ItefTop().(state := ItefThen)), false)
  {
    assert [Then][1..] == [];
  }

  lemma StepThen(s: Script, c: Config)
    requires c.p.InRange() && !c.halted && !c.p.AwaitsDo() && c.p.AwaitsThen()
    requires c.p.pos < |s.cmds| && s.cmds[c.p.pos] == [Then]
    ensures Step(s, c) == c.(p := c.p.WithItefTop(c.p.ItefTop().(state := ItefThen)).(pos := c.p.pos + 1), ret := false)
  {
    hide ParseCommand; hide Step;
    var p := c.p.(pos := c.p.pos + 1);
    ParseThen(p, c.p.pos);
    StepFinish(s, c, ParseCommand(p, c.p.pos, s.cmds[c.p.pos]).p);
  }

  lemma ParseElse(p: Parser, foffs: nat)
    requires p.InRange() && !p.AwaitsDo() && p.ItefTop().state == ItefThen
    ensures ParseCommand(p, foffs, [Else]) == Finished(p.WithItefTop(p.ItefTop().(state := ItefElse)), false)
  {
    assert [Else][1..] == [];
  }

  lemma StepElse(s: Script, c: Config)
    requires AtStatement(c) && c.p.ItefTop().state == ItefThen
    requires c.p.pos < |s.cmds| && s.cmds[c.p.pos] == [Else]
    ensures Step(s, c) == c.(p := c.p.WithItefTop(c.p.ItefTop().(state := ItefElse)).(pos := c.p.pos + 1), ret := false)
  {
    hide ParseCommand; hide Step;
    var p := c.p.(pos := c.p.pos + 1);
    ParseElse(p, c.p.pos);
    StepFinish(s, c, ParseCommand(p, c.p.pos, s.cmds[c.p.pos]).p);
  }

  lemma ParseFi(p: Parser, foffs: nat)
    requires p.InRange() && !p.AwaitsDo() && !p.AwaitsThen() && p.ItefTop().state != ItefNormal && p.iendx > 0
    ensures ParseCommand(p, foffs, [Fi]) == Finished(PopBranch(p), false)
  {
    assert [Fi][1..] == [];
  }

  lemma StepFi(s: Script, c: Config)
    requires AtStatement(c) && c.p.ItefTop().state != ItefNormal && c.p.iendx > 0
    requires c.p.pos < |s.cmds| && s.cmds[c.p.pos] == [Fi]
    ensures Step(s, c) == c.(p := PopBranch(c.p).(pos := c.p.pos + 1), ret := false)
  {
    hide ParseCommand; hide Step;
    var p := c.p.(pos := c.p.pos + 1);
    ParseFi(p, c.p.pos);
    StepFinish(s, c, ParseCommand(p, c.p.pos, s.cmds[c.p.pos]).p);
  }

  lemma ParseLoop(p: Parser, foffs: nat, until: bool, test: Words)
    requires p.InRange() && !p.AwaitsDo() && !p.AwaitsThen() && p.lpndx + 1 < |p.lp| && PlainCommand(test)
    ensures ParseCommand(p, foffs, LoopLine(until, test)) ==
      var q := PushedLoop(p, LoopSlot(if until then LoopUntil else LoopWhile, p.CmdEnabled(), p.iendx, foffs));
      if p.ItefEnabled() then Execute(q, test) else Finished(q, false)
  {
    assert LoopLine(until, test)[1..] == test;
  }

  lemma SaveLoopTest(p: Parser, slot: LoopSlot, failed: bool)
    requires p.InRange() && !p.AwaitsDo() && p.lpndx + 1 < |p.lp| && slot.iendx < |p.ie|
    requires slot.state == LoopWhile || slot.state == LoopUntil
    ensures SaveResult(PushedLoop(p, slot), failed)
         == (PushedLoop(p, slot.(enable := (slot.state == LoopUntil) == failed)).(fail := false), false)
  {
    var k, slot' := p.lpndx + 1, slot.(enable := (slot.state == LoopUntil) == failed);
    assert p.lp[k := slot][k := slot'] == p.lp[k := slot'];
  }

  lemma StepLoop(s: Script, c: Config, until: bool, test: Words)
    requires AtStatement(c) && c.p.lpndx + 1 < |c.p.lp|
    requires c.p.pos < |s.cmds| && s.cmds[c.p.pos] == LoopLine(until, test) && PlainCommand(test)
    ensures
      var state := if until then LoopUntil else LoopWhile;
      && (c.p.ItefEnabled() && c.results == [] ==> Step(s, c) == c)
      && (c.p.ItefEnabled() && c.results != [] ==>
          var r := c.results[0];
          var slot := LoopSlot(state, until == r, c.p.iendx, c.p.pos);
          Step(s, c) == Config(PushedLoop(c.p, slot).(pos := c.p.pos + 1, fail := false),
                               c.results[1..], c.trace + [Event(c.p.pos, test, r)], false, false))
      && (!c.p.ItefEnabled() ==>
          var slot := LoopSlot(state, false, c.p.iendx, c.p.pos);
          Step(s, c) == c.(p := PushedLoop(c.p, slot).(pos := c.p.pos + 1), ret := false))
  {
    hide ParseCommand;
    hide Step;
    hide SaveResult;
    var p := c.p.(pos := c.p.pos + 1);
    ParseLoop(p, c.p.pos, until, test);
    var q := PushedLoop(p, LoopSlot(if until then LoopUntil else LoopWhile, p.CmdEnabled(), p.iendx, c.p.pos));
    if p.ItefEnabled() {
      StepExecute(s, c, q, test);
      if c.results != [] {
        SaveLoopTest(p, q.LoopTop(), c.results[0]);
      }
    } else {
      StepFinish(s, c, q);
    }
  }

  lemma ParseDo(p: Parser, foffs: nat)
    requires p.InRange() && p.AwaitsDo() && !p.AwaitsThen()
    ensures ParseCommand(p, foffs, [Do]) == Finished(p.WithLoopTop(p.LoopTop().(state := LoopDo)), false)
  {
    assert [Do][1..] == [];
  }

  lemma StepDo(s: Script, c: Config)
    requires c.p.InRange() && !c.halted && c.p.AwaitsDo() && !c.p.AwaitsThen()
    requires c.p.pos < |s.cmds| && s.cmds[c.p.pos] == [Do]
    ensures Step(s, c) == c.(p := c.p.WithLoopTop(c.p.LoopTop().(state := LoopDo)).(pos := c.p.pos + 1), ret := false)
  {
    hide ParseCommand; hide Step;
    var p := c.p.(pos := c.p.pos + 1);
    ParseDo(p, c.p.pos);
    StepFinish(s, c, ParseCommand(p, c.p.pos, s.cmds[c.p.pos]).p);
  }

  /** The state behind `done`; `p` has already read on. */
  function CloseLoop(p: Parser): (q: Parser)
    requires p.InRange() && p.lpndx > 0
  {
    var top := p.LoopTop();
    p.WithLoopTop(top.(state := LoopNormal, enable := true))
     .(lpndx := p.lpndx - 1, pos := if top.enable then top.topoffs else p.pos)
  }

  lemma ParseDone(p: Parser, foffs: nat)
    requires p.InRange() && !p.AwaitsThen() && p.LoopTop().state == LoopDo && p.lpndx > 0
    ensures ParseCommand(p, foffs, [Done]) == Finished(CloseLoop(p), false)
  {
    assert [Done][1..] == [];
  }

  lemma StepDone(s: Script, c: Config)
    requires AtStatement(c) && c.p.LoopTop().state == LoopDo && c.p.lpndx > 0
    requires c.p.pos < |s.cmds| && s.cmds[c.p.pos] == [Done]
    ensures Step(s, c) == c.(p := CloseLoop(c.p.(pos := c.p.pos + 1)), ret := false)
  {
    hide ParseCommand; hide Step;
    var p := c.p.(pos := c.p.pos + 1);
    ParseDone(p, c.p.pos);
    StepFinish(s, c, ParseCommand(p, c.p.pos, s.cmds[c.p.pos]).p);
  }

  /** The stacks have room for the nesting of the block. */
  predicate Fits(p: Parser, b: Block) {
    p.lpndx + LoopDepth(b) < |p.lp| && p.iendx + BranchDepth(b) < |p.ie|
  }

  predicate FitsStmt(p: Parser, st: Stmt) {
    p.lpndx + LoopDepthOf(st) < |p.lp| && p.iendx + BranchDepthOf(st) < |p.ie|
  }

  lemma HoldsSplit(s: Script, at: nat, a: seq<Words>, b: seq<Words>)
    requires Holds(s, at, a + b)
    ensures Holds(s, at, a) && Holds(s, at + |a|, b)
  {
    assert s.cmds[at..at + |a|] == s.cmds[at..at + |a + b|][..|a|] == a;
    assert s.cmds[at + |a|..at + |a| + |b|] == s.cmds[at..at + |a + b|][|a|..] == b;
  }

  lemma HoldsOne(s: Script, at: nat, ws: Words)
    requires Holds(s, at, [ws])
    ensures at < |s.cmds| && s.cmds[at] == ws
  {
    assert s.cmds[at] == s.cmds[at..at + 1][0];
  }

  lemma LinesBranch(st: Stmt)
    requires st.Branch?
    ensures LinesOf(st) == [IfLine(st.inverted, st.test)]
      + ([[Then]] + (Lines(st.thn) + (ElsePart(st.hasElse, st.els) + [[Fi]])))
    ensures ElsePart(st.hasElse, st.els) == if st.hasElse then [[Else]] + Lines(st.els) else []
  {
    hide Lines;
  }

  lemma HoldsBranch(s: Script, at: nat, st: Stmt)
    requires st.Branch? && Holds(s, at, LinesOf(st))
    ensures |LinesOf(st)| == 3 + |Lines(st.thn)| + (if st.hasElse then 1 + |Lines(st.els)| else 0)
    ensures at + |LinesOf(st)| <= |s.cmds|
    ensures s.cmds[at] == IfLine(st.inverted, st.test) && s.cmds[at + 1] == [Then]
    ensures Holds(s, at + 2, Lines(st.thn))
    ensures st.hasElse ==>
      s.cmds[at + 2 + |Lines(st.thn)|] == [Else] && Holds(s, at + 3 + |Lines(st.thn)|, Lines(st.els))
    ensures s.cmds[at + |LinesOf(st)| - 1] == [Fi]
  {
    hide Holds; hide IfLine; hide Lines; hide ElsePart; hide LinesOf;
    LinesBranch(st);
    var thn, els := Lines(st.thn), ElsePart(st.hasElse, st.els);
    HoldsSplit(s, at, [IfLine(st.inverted, st.test)], [[Then]] + (thn + (els + [[Fi]])));
    HoldsOne(s, at, IfLine(st.inverted, st.test));
    HoldsSplit(s, at + 1, [[Then]], thn + (els + [[Fi]]));
    HoldsOne(s, at + 1, [Then]);
    HoldsSplit(s, at + 2, thn, els + [[Fi]]);
    HoldsSplit(s, at + 2 + |thn|, els, [[Fi]]);
    HoldsOne(s, at + 2 + |thn| + |els|, [Fi]);
    if st.hasElse {
      HoldsSplit(s, at + 2 + |thn|, [[Else]], Lines(st.els));
      HoldsOne(s, at + 2 + |thn|, [Else]);
    }
  }

  lemma HoldsLoop(s: Script, at: nat, st: Stmt)
    requires st.Loop? && Holds(s, at, LinesOf(st))
    ensures |LinesOf(st)| == 3 + |Lines(st.body)| && at + |LinesOf(st)| <= |s.cmds|
    ensures s.cmds[at] == LoopLine(st.until, st.test) && s.cmds[at + 1] == [Do]
    ensures Holds(s, at + 2, Lines(st.body))
    ensures s.cmds[at + |LinesOf(st)| - 1] == [Done]
  {
    hide Holds; hide LoopLine; hide Lines;
    var body := Lines(st.body);
    HoldsSplit(s, at, [LoopLine(st.until, st.test)], [[Do]] + (body + [[Done]]));
    HoldsOne(s, at, LoopLine(st.until, st.test));
    HoldsSplit(s, at + 1, [[Do]], body + [[Done]]);
    HoldsOne(s, at + 1, [Do]);
    HoldsSplit(s, at + 2, body, [[Done]]);
    HoldsOne(s, at + 2 + |body|, [Done]);
  }

  lemma ReachesNext(s: Script, c: Config, d: Config)
    requires c.p.InRange() && d.p.InRange() && Reaches(s, c, d)
    ensures Reaches(s, c, Step(s, d))
  {
    hide Step;
    ReachesStep(s, d);
    ReachesTrans(s, c, d, Step(s, d));
  }

  /** A block that is switched off is passed over: nothing runs and the stacks come back. */
  lemma {:induction false} Skip(s: Script, c: Config, b: Block) returns (d: Config)
    requires AtStatement(c) && !c.p.CmdEnabled()
    requires Holds(s, c.p.pos, Lines(b)) && WellFormed(b) && Fits(c.p, b)
    requires c.p.ItefEnabled() ==> NoDirectLoop(b)
    ensures Reaches(s, c, d)
    ensures SameStacks(c.p, d.p) && d.p.fail == c.p.fail && d.p.pos == c.p.pos + |Lines(b)|
    ensures d == c.(p := d.p, ret := b == Nil && c.ret)
    decreases b, 0
  {
    match b
    case Nil =>
      hide Step; hide Reaches; hide Holds;
      ReachesRefl(s, c);
      d := c;
    case Cons(st, rest) =>
      hide Step; hide Reaches; hide Holds; hide LinesOf; hide SameStacks; hide FitsStmt; hide Fits;
      HoldsSplit(s, c.p.pos, LinesOf(st), Lines(rest));
      FitsCons(c.p, st, rest);
      var e := SkipStmt(s, c, st);
      StillOff(c, e, rest);
      d := Skip(s, e, rest);
      ReachesTrans(s, c, e, d);
      SameTrans(c.p, e.p, d.p);
  }

  lemma StillOff(c: Config, e: Config, rest: Block)
    requires AtStatement(c) && !c.p.CmdEnabled() && Fits(c.p, rest) && SameStacks(c.p, e.p) && !e.halted
    ensures AtStatement(e) && !e.p.CmdEnabled() && Fits(e.p, rest) && e.p.ItefEnabled() == c.p.ItefEnabled()
  {
  }

  lemma SameTrans(p: Parser, q: Parser, r: Parser)
    requires SameStacks(p, q) && SameStacks(q, r)
    ensures SameStacks(p, r)
  {
  }

  lemma {:induction false} SkipStmt(s: Script, c: Config, st: Stmt) returns (d: Config)
    requires AtStatement(c) && !c.p.CmdEnabled()
    requires Holds(s, c.p.pos, LinesOf(st)) && WellFormedStmt(st) && FitsStmt(c.p, st)
    requires c.p.ItefEnabled() ==> !st.Loop?
    ensures Reaches(s, c, d)
    ensures SameStacks(c.p, d.p) && d.p.fail == c.p.fail && d.p.pos == c.p.pos + |LinesOf(st)|
    ensures d == c.(p := d.p, ret := false)
    decreases st, 2
  {
    hide Step; hide Reaches;
    match st
    case Blank =>
      HoldsOne(s, c.p.pos, []);
      StepSkips(s, c);
      ReachesStep(s, c);
      d := Step(s, c);
    case Command(argv) =>
      HoldsOne(s, c.p.pos, argv);
      StepSkips(s, c);
      ReachesStep(s, c);
      d := Step(s, c);
    case BreakLoop =>
      HoldsOne(s, c.p.pos, [BreakName]);
      StepSkips(s, c);
      ReachesStep(s, c);
      d := Step(s, c);
    case Branch(_, _, _, _, _) =>
      d := SkipBranch(s, c, st);
    case Loop(_, _, _) =>
      d := SkipLoop(s, c, st);
  }

  lemma {:induction false} SkipBranch(s: Script, c: Config, st: Stmt) returns (d: Config)
    requires AtStatement(c) && !c.p.CmdEnabled() && st.Branch?
    requires Holds(s, c.p.pos, LinesOf(st)) && WellFormedStmt(st) && FitsStmt(c.p, st)
    ensures Reaches(s, c, d)
    ensures SameStacks(c.p, d.p) && d.p.fail == c.p.fail && d.p.pos == c.p.pos + |LinesOf(st)|
    ensures d == c.(p := d.p, ret := false)
    decreases st, 1
  {
    hide Step; hide Reaches; hide Holds; hide LinesOf; hide IfLine; hide SameStacks;
    HoldsBranch(s, c.p.pos, st);
    var e := SkipTest(s, c, st);
    var t := Skip(s, e, st.thn);
    ReachesTrans(s, c, e, t);
    SkippedPart(c.p, e.p, t, e.p.ItefTop(), st);
    d := SkipElse(s, t, st, c.p.pos);
    ReachesTrans(s, c, t, d);
    SameTrans(c.p, PopBranch(t.p), d.p);
  }

  lemma SkipTest(s: Script, c: Config, st: Stmt) returns (d: Config)
    requires AtStatement(c) && !c.p.CmdEnabled() && st.Branch?
    requires Holds(s, c.p.pos, LinesOf(st)) && WellFormedStmt(st) && FitsStmt(c.p, st)
    ensures Reaches(s, c, d) && c.p.iendx + 1 < |c.p.ie|
    ensures
      var slot := ItefSlot(ItefThen, false, true, st.inverted);
      d == c.(p := PushBranch(c.p, slot).(pos := c.p.pos + 2), ret := false)
    ensures AtStatement(d) && !d.p.CmdEnabled() && !d.p.ItefEnabled() && Fits(d.p, st.thn)
  {
    hide Step; hide Reaches; hide Holds; hide LinesOf; hide IfLine;
    HoldsBranch(s, c.p.pos, st);
    StepIf(s, c, st.inverted, st.test);
    ReachesStep(s, c);
    var e := Step(s, c);
    StepThen(s, e);
    ReachesNext(s, c, e);
    d := Step(s, e);
    var k := c.p.iendx + 1;
    assert c.p.ie[k := ItefSlot(ItefIf, false, true, st.inverted)][k := ItefSlot(ItefThen, false, true, st.inverted)]
        == c.p.ie[k := ItefSlot(ItefThen, false, true, st.inverted)];
  }

  lemma SkippedPart(p: Parser, q: Parser, t: Config, slot: ItefSlot, st: Stmt)
    requires p.InRange() && p.iendx + 1 < |p.ie| && q == PushBranch(p, slot).(pos := q.pos) && SameStacks(q, t.p)
    requires slot.state == ItefThen && slot.disabled && !p.AwaitsDo() && !t.halted && FitsStmt(p, st)
    ensures AtStatement(t) && t.p.iendx > 0 && t.p.ItefTop() == slot
    ensures SameStacks(p, PopBranch(t.p)) && FitsStmt(PopBranch(t.p), st)
  {
  }

  /** From the end of a `then` part that was skipped to the end of the branch. */
  lemma {:induction false} SkipElse(s: Script, c: Config, st: Stmt, at: nat) returns (d: Config)
    requires AtStatement(c) && st.Branch? && Holds(s, at, LinesOf(st)) && WellFormedStmt(st)
    requires c.p.iendx > 0 && FitsStmt(PopBranch(c.p), st) && c.p.pos == at + 2 + |Lines(st.thn)|
    requires c.p.ItefTop().state == ItefThen && c.p.ItefTop().disabled
    ensures Reaches(s, c, d)
    ensures SameStacks(PopBranch(c.p), d.p) && d.p.fail == c.p.fail && d.p.pos == at + |LinesOf(st)|
    ensures d == c.(p := d.p, ret := false)
    decreases st, 0
  {
    hide Step; hide Reaches; hide Holds; hide LinesOf; hide IfLine;
    HoldsBranch(s, at, st);
    var t := c;
    ReachesRefl(s, c);
    if st.hasElse {
      StepElse(s, c);
      ReachesStep(s, c);
      var u := Step(s, c);
      t := Skip(s, u, st.els);
      ReachesTrans(s, c, u, t);
    }
    StepFi(s, t);
    ReachesNext(s, c, t);
    d := Step(s, t);
  }

  lemma {:induction false} SkipLoop(s: Script, c: Config, st: Stmt) returns (d: Config)
    requires AtStatement(c) && !c.p.ItefEnabled() && st.Loop?
    requires Holds(s, c.p.pos, LinesOf(st)) && WellFormedStmt(st) && FitsStmt(c.p, st)
    ensures Reaches(s, c, d)
    ensures SameStacks(c.p, d.p) && d.p.fail == c.p.fail && d.p.pos == c.p.pos + |LinesOf(st)|
    ensures d == c.(p := d.p, ret := false)
    decreases st, 0
  {
    hide Step; hide Reaches; hide Holds; hide LinesOf; hide LoopLine;
    HoldsLoop(s, c.p.pos, st);
    StepLoop(s, c, st.until, st.test);
    ReachesStep(s, c);
    var c1 := Step(s, c);
    StepDo(s, c1);
    ReachesNext(s, c, c1);
    var c2 := Step(s, c1);
    var c3 := Skip(s, c2, st.body);
    ReachesTrans(s, c, c2, c3);
    StepDone(s, c3);
    ReachesNext(s, c, c3);
    d := Step(s, c3);
  }

  /** `d` is where the machine gets from `c` when the interpreter says `m` and completes at `end`. */
  predicate Matches(s: Script, c: Config, d: Config, m: Meaning, end: nat) {
    && d.p.InRange() && c.p.InRange()
    && d.trace == c.trace + m.events && d.results == m.rest
    && d.p.fail == m.fail && d.ret == m.ret
    && d.halted == (m.end == Aborted)
    && (m.end == Completed ==> d.p.pos == end && SameStacks(c.p, d.p))
    && (m.end == Broken ==> d.p.pos == end && SameStacks(Switched(c.p), d.p))
    && (m.end == Waiting ==> Step(s, d) == d)
  }

  /** The machine stands before a block that it is going to run. */
  predicate Ready(s: Script, c: Config) {
    AtStatement(c) && c.p.CmdEnabled() && (s.ignore ==> CommandsEndLines(s))
  }

  function ModeAt(s: Script, p: Parser): Mode {
    Mode(s.ignore, InLoop(p))
  }

  function BlockMeaning(s: Script, c: Config, b: Block): (m: Meaning) {
    Interpret(b, c.p.pos, c.p.fail, c.ret, ModeAt(s, c.p), c.results)
  }

  function StmtMeaning(s: Script, c: Config, st: Stmt): (m: Meaning) {
    InterpretStmt(st, c.p.pos, c.p.fail, c.ret, ModeAt(s, c.p), c.results)
  }

  /** The machine can cope with the block here; a `break` of the block leaves the if-stack alone. */
  predicate Runnable(p: Parser, b: Block) {
    && p.InRange() && WellFormed(b) && Regular(b, InLoop(p)) && Fits(p, b)
    && (InLoop(p) && !NoDirectBreak(b) ==> p.LoopTop().iendx == p.iendx && NoDirectLoop(b))
  }

  lemma MatchesThen(s: Script, c: Config, e: Config, d: Config, m: Meaning, m': Meaning, mid: nat, end: nat)
    requires Matches(s, c, e, m, mid) && m.end == Completed && Matches(s, e, d, m', end)
    ensures Matches(s, c, d, m'.After(m.events), end)
  {
    hide Step;
  }

  lemma StillReady(s: Script, c: Config, e: Config, m: Meaning, mid: nat)
    requires Ready(s, c) && Matches(s, c, e, m, mid) && m.end == Completed
    ensures Ready(s, e) && e.p.pos == mid && e.p.fail == m.fail && e.ret == m.ret && e.results == m.rest
    ensures ModeAt(s, e.p) == ModeAt(s, c.p)
    ensures SameStacks(c.p, e.p) && c.p.InRange() && e.p.InRange() && e.trace == c.trace + m.events
  {
    hide Step;
  }

  lemma FitsSame(p: Parser, q: Parser, b: Block, st: Stmt)
    requires SameStacks(p, q)
    ensures Fits(p, b) == Fits(q, b) && FitsStmt(p, st) == FitsStmt(q, st)
  {
  }

  lemma FitsCons(p: Parser, st: Stmt, rest: Block)
    ensures Fits(p, Cons(st, rest)) == (FitsStmt(p, st) && Fits(p, rest))
  {
  }

  lemma MeaningCons(s: Script, c: Config, st: Stmt, rest: Block)
    ensures
      var m := StmtMeaning(s, c, st);
      BlockMeaning(s, c, Cons(st, rest)) ==
        if m.end != Completed then m
        else Interpret(rest, c.p.pos + |LinesOf(st)|, m.fail, m.ret, ModeAt(s, c.p), m.rest).After(m.events)
  {
  }

  /** Only a `break` of the block itself leaves a loop around it. */
  lemma {:induction false} NotBroken(b: Block, at: nat, fail: bool, ret: bool, mode: Mode, rs: seq<bool>)
    requires Regular(b, mode.inLoop) && (mode.inLoop ==> NoDirectBreak(b))
    ensures Interpret(b, at, fail, ret, mode, rs).end != Broken
    decreases b, 0
  {
    if b.Cons? {
      NotBrokenStmt(b.head, at, fail, ret, mode, rs);
      var m := InterpretStmt(b.head, at, fail, ret, mode, rs);
      if m.end == Completed {
        NotBroken(b.tail, at + |LinesOf(b.head)|, m.fail, m.ret, mode, m.rest);
      }
    }
  }

  lemma {:induction false} NotBrokenStmt(st: Stmt, at: nat, fail: bool, ret: bool, mode: Mode, rs: seq<bool>)
    requires RegularStmt(st, mode.inLoop) && (mode.inLoop ==> !st.BreakLoop?)
    ensures InterpretStmt(st, at, fail, ret, mode, rs).end != Broken
    decreases st, |rs|
  {
    if rs != [] && st.Branch? {
      NotBroken(st.thn, at + 2, false, false, mode, rs[1..]);
      NotBroken(st.els, at + 3 + |Lines(st.thn)|, false, false, mode, rs[1..]);
    } else if rs != [] && st.Loop? {
      hide Interpret;
      var m := Interpret(st.body, at + 2, false, false, mode.(inLoop := true), rs[1..]);
      NotBrokenStmt(st, at, m.fail, false, mode, m.rest);
    }
  }

  lemma RunnableCons(p: Parser, st: Stmt, rest: Block)
    requires Runnable(p, Cons(st, rest)) && !(st.BreakLoop? && InLoop(p))
    ensures WellFormedStmt(st) && RegularStmt(st, InLoop(p)) && FitsStmt(p, st) && Runnable(p, rest)
  {
    hide RegularStmt; hide WellFormedStmt; hide Fits; hide FitsStmt;
    FitsCons(p, st, rest);
  }

  lemma RunnableSame(p: Parser, q: Parser, b: Block)
    requires Runnable(p, b) && SameStacks(p, q)
    ensures Runnable(q, b)
  {
    hide Regular;
  }

  /** A `break` of the loop whose body the block is: the rest of the block is passed over. */
  lemma RunBreak(s: Script, c: Config, rest: Block) returns (d: Config)
    requires Ready(s, c) && Holds(s, c.p.pos, Lines(Cons(BreakLoop, rest)))
    requires InLoop(c.p) && Runnable(c.p, Cons(BreakLoop, rest))
    ensures Reaches(s, c, d)
    ensures Matches(s, c, d, BlockMeaning(s, c, Cons(BreakLoop, rest)), c.p.pos + 1 + |Lines(rest)|)
  {
    hide *;
    BreakLines(rest);
    HoldsSplit(s, c.p.pos, [[BreakName]], Lines(rest));
    HoldsOne(s, c.p.pos, [BreakName]);
    ReadyStands(s, c);
    var e := Step(s, c);
    BreakTop(c.p, rest);
    BreakOnce(s, c);
    BehindBreakIsOff(s, c, e, rest);
    ReachesStep(s, c);
    d := Skip(s, e, rest);
    ReachesTrans(s, c, e, d);
    MeaningBreak(s, c, rest);
    SkippedMatches(s, c, e, d, c.p.pos + 1 + |Lines(rest)|, rest == Nil);
  }

  lemma BreakLines(rest: Block)
    ensures Lines(Cons(BreakLoop, rest)) == [[BreakName]] + Lines(rest)
  {
  }

  lemma BreakTop(p: Parser, rest: Block)
    requires InLoop(p) && Runnable(p, Cons(BreakLoop, rest))
    ensures p.InRange() && p.LoopTop().iendx == p.iendx
  {
  }

  lemma ReadyStands(s: Script, c: Config)
    requires Ready(s, c)
    ensures c.p.InRange() && !c.halted
  {
  }

  lemma MeaningBreak(s: Script, c: Config, rest: Block)
    requires InLoop(c.p)
    ensures BlockMeaning(s, c, Cons(BreakLoop, rest)) == Meaning([], c.results, Broken, false, false)
  {
    hide LinesOf;
    var m := StmtMeaning(s, c, BreakLoop);
    assert m == Meaning([], c.results, Broken, false, false);
    MeaningCons(s, c, BreakLoop, rest);
  }

  /** Behind a `break` that left the if-stack alone. */
  predicate BehindBreak(c: Config, e: Config) {
    c.p.InRange() && e == c.(p := Switched(c.p).(pos := c.p.pos + 1, fail := false), ret := false)
  }

  lemma BreakOnce(s: Script, c: Config)
    requires Ready(s, c) && InLoop(c.p) && c.p.LoopTop().iendx == c.p.iendx
    requires c.p.pos < |s.cmds| && s.cmds[c.p.pos] == [BreakName]
    ensures BehindBreak(c, Step(s, c))
  {
    hide Step;
    StepBreak(s, c);
  }

  lemma BehindBreakIsOff(s: Script, c: Config, e: Config, rest: Block)
    requires Ready(s, c) && InLoop(c.p) && BehindBreak(c, e) && Runnable(c.p, Cons(BreakLoop, rest))
    ensures AtStatement(e) && !e.p.CmdEnabled() && WellFormed(rest) && Fits(e.p, rest) && NoDirectLoop(rest)
    ensures c.p.LoopTop().iendx == c.p.iendx && e.p.pos == c.p.pos + 1
  {
    hide Regular;
  }

  lemma SkippedMatches(s: Script, c: Config, e: Config, d: Config, end: nat, last: bool)
    requires BehindBreak(c, e) && SameStacks(e.p, d.p) && d.p.fail == e.p.fail && d.p.pos == end
    requires d == e.(p := d.p, ret := last && e.ret) && !c.halted
    ensures Matches(s, c, d, Meaning([], c.results, Broken, false, false), end)
  {
    hide Step;
    assert c.trace + [] == c.trace;
  }

  /** Running a block: the machine does what the interpreter says. */
  lemma {:induction false} Run(s: Script, c: Config, b: Block) returns (d: Config)
    requires Ready(s, c) && Holds(s, c.p.pos, Lines(b)) && Runnable(c.p, b)
    ensures Reaches(s, c, d)
    ensures Matches(s, c, d, BlockMeaning(s, c, b), c.p.pos + |Lines(b)|)
    decreases |c.results|, b, 1
  {
    hide Step; hide Reaches;
    if b == Nil {
      ReachesRefl(s, c);
      d := c;
    } else {
      hide *;
      if b.head.BreakLoop? && InLoop(c.p) {
        BreakLines(b.tail);
        d := RunBreak(s, c, b.tail);
      } else {
        d := RunCons(s, c, b.head, b.tail);
      }
    }
  }

  lemma {:induction false} RunCons(s: Script, c: Config, st: Stmt, rest: Block) returns (d: Config)
    requires Ready(s, c) && Holds(s, c.p.pos, Lines(Cons(st, rest))) && Runnable(c.p, Cons(st, rest))
    requires !(st.BreakLoop? && InLoop(c.p))
    ensures Reaches(s, c, d)
    ensures Matches(s, c, d, BlockMeaning(s, c, Cons(st, rest)), c.p.pos + |Lines(Cons(st, rest))|)
    decreases |c.results|, Cons(st, rest), 0
  {
    hide *;
    var m, mid := StmtMeaning(s, c, st), c.p.pos + |LinesOf(st)|;
    LinesCons(st, rest);
    MeaningCons(s, c, st, rest);
    RunnableCons(c.p, st, rest);
    HoldsSplit(s, c.p.pos, LinesOf(st), Lines(rest));
    d := RunStmt(s, c, st);
    StmtEnd(s, c, st);
    if m.end == Completed {
      var e := d;
      StillReady(s, c, e, m, mid);
      RunnableSame(c.p, e.p, rest);
      d := Run(s, e, rest);
      ReachesTrans(s, c, e, d);
      MeaningSame(s, c, e, m, rest);
      MatchesThen(s, c, e, d, m, BlockMeaning(s, e, rest), mid, mid + |Lines(rest)|);
    } else {
      MatchesAnywhere(s, c, d, m, mid, mid + |Lines(rest)|);
    }
  }

  lemma LinesCons(st: Stmt, rest: Block)
    ensures Lines(Cons(st, rest)) == LinesOf(st) + Lines(rest)
  {
  }

  lemma StmtEnd(s: Script, c: Config, st: Stmt)
    requires RegularStmt(st, InLoop(c.p)) && !(st.BreakLoop? && InLoop(c.p))
    ensures StmtMeaning(s, c, st).end != Broken && |StmtMeaning(s, c, st).rest| <= |c.results|
  {
    hide RegularStmt; hide InterpretStmt;
    NotBrokenStmt(st, c.p.pos, c.p.fail, c.ret, ModeAt(s, c.p), c.results);
  }

  lemma MeaningSame(s: Script, c: Config, e: Config, m: Meaning, rest: Block)
    requires e.p.fail == m.fail && e.ret == m.ret && e.results == m.rest && ModeAt(s, e.p) == ModeAt(s, c.p)
    ensures BlockMeaning(s, e, rest) == Interpret(rest, e.p.pos, m.fail, m.ret, ModeAt(s, c.p), m.rest)
  {
  }

  lemma MatchesAnywhere(s: Script, c: Config, d: Config, m: Meaning, mid: nat, end: nat)
    requires Matches(s, c, d, m, mid) && m.end != Completed && m.end != Broken
    ensures Matches(s, c, d, m, end)
  {
    hide Step;
  }

  lemma {:induction false} RunStmt(s: Script, c: Config, st: Stmt) returns (d: Config)
    requires Ready(s, c) && Holds(s, c.p.pos, LinesOf(st))
    requires WellFormedStmt(st) && RegularStmt(st, InLoop(c.p)) && FitsStmt(c.p, st)
    requires !(st.BreakLoop? && InLoop(c.p))
    ensures Reaches(s, c, d)
    ensures Matches(s, c, d, StmtMeaning(s, c, st), c.p.pos + |LinesOf(st)|)
    decreases |c.results|, st, 2
  {
    hide Step; hide Reaches;
    match st
    case Blank =>
      HoldsOne(s, c.p.pos, []);
      StepSkips(s, c);
      ReachesStep(s, c);
      d := Step(s, c);
    case Command(argv) =>
      HoldsOne(s, c.p.pos, argv);
      StepRunsCommand(s, c);
      ReachesStep(s, c);
      d := Step(s, c);
    case BreakLoop =>
      HoldsOne(s, c.p.pos, [BreakName]);
      StepBreak(s, c);
      ReachesStep(s, c);
      d := Step(s, c);
    case Branch(_, _, _, _, _) =>
      d := RunBranch(s, c, st);
    case Loop(_, _, _) =>
      d := RunLoop(s, c, st);
  }

  /** From the end of a `then` part that ran, past an `else` part if there is one, to behind `fi`. */
  lemma LeaveThen(s: Script, c: Config, st: Stmt, at: nat) returns (d: Config)
    requires AtStatement(c) && st.Branch? && Holds(s, at, LinesOf(st)) && WellFormedStmt(st)
    requires c.p.iendx > 0 && FitsStmt(PopBranch(c.p), st)
    requires c.p.ItefTop().state == ItefThen && !c.p.ItefTop().ifcond
    requires c.p.pos == at + 2 + |Lines(st.thn)|
    ensures Reaches(s, c, d)
    ensures SameStacks(PopBranch(c.p), d.p) && d.p.fail == c.p.fail && d.p.pos == at + |LinesOf(st)|
    ensures d == c.(p := d.p, ret := false)
  {
    hide Step; hide Reaches; hide Holds; hide LinesOf; hide IfLine;
    HoldsBranch(s, at, st);
    ReachesRefl(s, c);
    var e := c;
    if st.hasElse {
      StepElse(s, c);
      ReachesNext(s, c, c);
      var c1 := Step(s, c);
      e := Skip(s, c1, st.els);
      ReachesTrans(s, c, c1, e);
    }
    StepFi(s, e);
    ReachesNext(s, c, e);
    d := Step(s, e);
  }

  /** Past `if` and `then`: the test ran and the branch is on the stack. */
  lemma EnterBranch(s: Script, c: Config, st: Stmt) returns (d: Config)
    requires Ready(s, c) && c.results != [] && st.Branch? && Holds(s, c.p.pos, LinesOf(st))
    requires WellFormedStmt(st) && FitsStmt(c.p, st)
    ensures Reaches(s, c, d)
    ensures d.p == PushBranch(c.p, ItefSlot(ItefThen, st.inverted != c.results[0], false, st.inverted))
                   .(pos := c.p.pos + 2, fail := false)
    ensures d == Config(d.p, c.results[1..], c.trace + [Event(c.p.pos, st.test, c.results[0])], false, false)
  {
    hide Step; hide Reaches; hide Holds; hide LinesOf; hide IfLine;
    HoldsBranch(s, c.p.pos, st);
    StepIf(s, c, st.inverted, st.test);
    ReachesStep(s, c);
    var c1 := Step(s, c);
    StepThen(s, c1);
    ReachesNext(s, c, c1);
    d := Step(s, c1);
    var k := c.p.iendx + 1;
    assert d.p.ie == c.p.ie[k := ItefSlot(ItefThen, st.inverted != c.results[0], false, st.inverted)];
  }

  lemma MeaningBranch(s: Script, c: Config, st: Stmt)
    requires st.Branch?
    ensures
      StmtMeaning(s, c, st) ==
        if c.results == [] then Meaning([], [], Waiting, c.p.fail, c.ret)
        else
          var rs := c.results[1..];
          var m := if st.inverted == c.results[0] then Interpret(st.thn, c.p.pos + 2, false, false, ModeAt(s, c.p), rs)
                   else Interpret(st.els, c.p.pos + 3 + |Lines(st.thn)|, false, false, ModeAt(s, c.p), rs);
          m.After([Event(c.p.pos, st.test, c.results[0])]).(ret := m.end != Completed && m.ret)
  {
    hide Interpret;
  }

  lemma {:induction false} RunBranch(s: Script, c: Config, st: Stmt) returns (d: Config)
    requires Ready(s, c) && st.Branch? && Holds(s, c.p.pos, LinesOf(st))
    requires WellFormedStmt(st) && RegularStmt(st, InLoop(c.p)) && FitsStmt(c.p, st)
    ensures Reaches(s, c, d)
    ensures Matches(s, c, d, StmtMeaning(s, c, st), c.p.pos + |LinesOf(st)|)
    decreases |c.results|, st, 0
  {
    hide Step; hide Reaches; hide Holds; hide LinesOf; hide IfLine; hide Interpret; hide InterpretStmt;
    MeaningBranch(s, c, st);
    if c.results == [] {
      HoldsBranch(s, c.p.pos, st);
      StepIf(s, c, st.inverted, st.test);
      ReachesRefl(s, c);
      d := c;
    } else {
      var e := EnterBranch(s, c, st);
      var m := if st.inverted == c.results[0] then BlockMeaning(s, e, st.thn)
               else Interpret(st.els, c.p.pos + 3 + |Lines(st.thn)|, false, false, ModeAt(s, c.p), e.results);
      Entered(s, c, e, st);
      d := RunParts(s, e, st, c.p.pos);
      ReachesTrans(s, c, e, d);
      BranchMatches(s, c, e, d, st, m, c.p.pos + |LinesOf(st)|);
    }
  }

  /** The branch has been entered. */
  lemma Entered(s: Script, c: Config, e: Config, st: Stmt)
    requires Ready(s, c) && c.results != [] && st.Branch? && Holds(s, c.p.pos, LinesOf(st))
    requires WellFormedStmt(st) && RegularStmt(st, InLoop(c.p)) && FitsStmt(c.p, st)
    requires e.p == PushBranch(c.p, ItefSlot(ItefThen, st.inverted != c.results[0], false, st.inverted))
                    .(pos := c.p.pos + 2, fail := false)
    requires e == Config(e.p, c.results[1..], c.trace + [Event(c.p.pos, st.test, c.results[0])], false, false)
    ensures OnBranch(s, e, st, c.p.pos) && e.p.ItefTop().ifcond == (st.inverted != c.results[0])
    ensures ModeAt(s, e.p) == ModeAt(s, c.p)
  {
    hide Holds; hide LinesOf; hide Regular;
  }

  lemma BranchMatches(s: Script, c: Config, e: Config, d: Config, st: Stmt, m: Meaning, end: nat)
    requires c.p.InRange() && c.p.iendx + 1 < |c.p.ie| && c.results != [] && m.end != Broken && st.Branch?
    requires e.p == PushBranch(c.p, ItefSlot(ItefThen, st.inverted != c.results[0], false, st.inverted))
                    .(pos := c.p.pos + 2, fail := false)
    requires e.trace == c.trace + [Event(c.p.pos, st.test, c.results[0])]
    requires Matches(s, e.(p := PopBranch(e.p)), d, m.(ret := m.end != Completed && m.ret), end)
    ensures
      var es := [Event(c.p.pos, st.test, c.results[0])];
      Matches(s, c, d, m.After(es).(ret := m.end != Completed && m.ret), end)
  {
    hide Step;
  }

  lemma PartMatches(s: Script, c: Config, t: Config, d: Config, m: Meaning, mid: nat, end: nat)
    requires Matches(s, c, t, m, mid) && m.end == Completed && c.p.iendx > 0
    requires SameStacks(PopBranch(t.p), d.p) && d.p.fail == t.p.fail && d.p.pos == end
      && d == t.(p := d.p, ret := false)
    ensures Matches(s, c.(p := PopBranch(c.p)), d, m.(ret := false), end)
  {
    hide Step;
  }

  lemma PartStops(s: Script, c: Config, d: Config, m: Meaning, mid: nat, end: nat)
    requires Matches(s, c, d, m, mid) && m.end != Completed && m.end != Broken && c.p.iendx > 0
    ensures Matches(s, c.(p := PopBranch(c.p)), d, m, end)
  {
    hide Step;
  }

  /** The machine stands in the `then` part of a branch at `at` whose test has run. */
  predicate OnBranch(s: Script, c: Config, st: Stmt, at: nat) {
    && AtStatement(c) && st.Branch? && Holds(s, at, LinesOf(st)) && (s.ignore ==> CommandsEndLines(s))
    && WellFormedStmt(st) && RegularStmt(st, InLoop(c.p)) && c.p.iendx > 0 && FitsStmt(PopBranch(c.p), st)
    && c.p.LoopEnabled() && c.p.ItefTop().state == ItefThen && !c.p.ItefTop().disabled && !c.ret
  }

  lemma ThenRuns(s: Script, c: Config, st: Stmt, at: nat)
    requires OnBranch(s, c, st, at) && !c.p.ItefTop().ifcond
    ensures Ready(s, c) && Runnable(c.p, st.thn)
    ensures BlockMeaning(s, c, st.thn).end != Broken
  {
    hide Holds; hide LinesOf; hide Regular; hide Interpret;
    NotBroken(st.thn, c.p.pos, c.p.fail, c.ret, ModeAt(s, c.p), c.results);
  }

  /** Both parts of a branch whose test has run, up to behind `fi`: the one runs and the other is passed over. */
  lemma {:induction false} RunParts(s: Script, c: Config, st: Stmt, at: nat) returns (d: Config)
    requires OnBranch(s, c, st, at) && c.p.pos == at + 2 && !c.p.fail
    ensures Reaches(s, c, d)
    ensures
      var m := if !c.p.ItefTop().ifcond then BlockMeaning(s, c, st.thn)
               else Interpret(st.els, at + 3 + |Lines(st.thn)|, false, false, ModeAt(s, c.p), c.results);
      && m.end != Broken
      && Matches(s, c.(p := PopBranch(c.p)), d, m.(ret := m.end != Completed && m.ret), at + |LinesOf(st)|)
    decreases |c.results|, st, 1
  {
    hide Step; hide Reaches; hide Holds; hide LinesOf; hide Interpret; hide Ready; hide Runnable; hide Matches;
    hide RegularStmt; hide SameStacks; hide Fits;
    if !c.p.ItefTop().ifcond {
      ThenRuns(s, c, st, at);
      d := RunThen(s, c, st, at);
    } else {
      HoldsBranch(s, at, st);
      OnBranchFits(s, c, st, at);
      var t := Skip(s, c, st.thn);
      assert !c.ret;
      StillOnBranch(s, c, t, st, at);
      d := RunElse(s, t, st, at);
      ReachesTrans(s, c, t, d);
      SamePopped(s, c, t, d, at + |LinesOf(st)|);
    }
  }

  lemma OnBranchFits(s: Script, c: Config, st: Stmt, at: nat)
    requires OnBranch(s, c, st, at) && c.p.ItefTop().ifcond
    ensures !c.p.CmdEnabled() && !c.p.ItefEnabled() && WellFormed(st.thn) && Fits(c.p, st.thn)
  {
    hide Holds; hide LinesOf; hide Regular;
  }

  lemma StillOnBranch(s: Script, c: Config, t: Config, st: Stmt, at: nat)
    requires OnBranch(s, c, st, at) && SameStacks(c.p, t.p) && t.p.fail == c.p.fail
    requires t == c.(p := t.p, ret := false)
    ensures OnBranch(s, t, st, at) && t.p.ItefTop() == c.p.ItefTop() && ModeAt(s, t.p) == ModeAt(s, c.p)
  {
    hide Holds; hide LinesOf; hide RegularStmt;
  }

  lemma SamePopped(s: Script, c: Config, t: Config, d: Config, end: nat)
    requires c.p.InRange() && c.p.iendx > 0 && SameStacks(c.p, t.p) && t.trace == c.trace
    ensures forall m: Meaning :: m.end != Broken && Matches(s, t.(p := PopBranch(t.p)), d, m, end) ==>
      Matches(s, c.(p := PopBranch(c.p)), d, m, end)
  {
    hide Step;
  }

  /** A `then` part that runs, up to behind `fi`. */
  lemma {:induction false} RunThen(s: Script, c: Config, st: Stmt, at: nat) returns (d: Config)
    requires OnBranch(s, c, st, at) && !c.p.ItefTop().ifcond && c.p.pos == at + 2
    ensures
      var m := BlockMeaning(s, c, st.thn);
      && Reaches(s, c, d)
      && Matches(s, c.(p := PopBranch(c.p)), d, m.(ret := m.end != Completed && m.ret), at + |LinesOf(st)|)
    decreases |c.results|, st, 0
  {
    hide Step; hide Reaches; hide Holds; hide LinesOf; hide Interpret; hide Ready; hide Runnable; hide Matches;
    hide RegularStmt; hide SameStacks; hide Fits;
    HoldsBranch(s, at, st);
    ThenRuns(s, c, st, at);
    var m, mid := BlockMeaning(s, c, st.thn), at + 2 + |Lines(st.thn)|;
    d := Run(s, c, st.thn);
    if m.end == Completed {
      var t := d;
      StillThen(s, c, t, m, st, at);
      d := LeaveThen(s, t, st, at);
      ReachesTrans(s, c, t, d);
      PartMatches(s, c, t, d, m, mid, at + |LinesOf(st)|);
    } else {
      PartStops(s, c, d, m, mid, at + |LinesOf(st)|);
      assert m.(ret := m.end != Completed && m.ret) == m;
    }
  }

  lemma StillThen(s: Script, c: Config, t: Config, m: Meaning, st: Stmt, at: nat)
    requires OnBranch(s, c, st, at) && !c.p.ItefTop().ifcond && m.end == Completed
    requires Matches(s, c, t, m, at + 2 + |Lines(st.thn)|)
    ensures AtStatement(t) && t.p.iendx > 0 && FitsStmt(PopBranch(t.p), st)
    ensures t.p.ItefTop().state == ItefThen && !t.p.ItefTop().ifcond && t.p.pos == at + 2 + |Lines(st.thn)|
  {
    hide Step; hide Holds; hide LinesOf; hide RegularStmt;
  }

  lemma ElseRuns(s: Script, c: Config, e: Config, st: Stmt, at: nat)
    requires OnBranch(s, c, st, at) && c.p.ItefTop().ifcond
    requires e == c.(p := c.p.WithItefTop(c.p.ItefTop().(state := ItefElse)).(pos := c.p.pos + 1), ret := false)
    ensures Ready(s, e) && Runnable(e.p, st.els)
    ensures BlockMeaning(s, e, st.els) == Interpret(st.els, c.p.pos + 1, c.p.fail, false, ModeAt(s, c.p), c.results)
    ensures BlockMeaning(s, e, st.els).end != Broken
  {
    hide Holds; hide LinesOf; hide Regular; hide Interpret;
    NotBroken(st.els, e.p.pos, e.p.fail, e.ret, ModeAt(s, e.p), e.results);
  }

  /** From the end of a `then` part that was passed over. */
  lemma {:induction false} RunElse(s: Script, c: Config, st: Stmt, at: nat) returns (d: Config)
    requires OnBranch(s, c, st, at) && c.p.ItefTop().ifcond && c.p.pos == at + 2 + |Lines(st.thn)|
    ensures
      var m := Interpret(st.els, c.p.pos + 1, c.p.fail, false, ModeAt(s, c.p), c.results);
      && Reaches(s, c, d) && m.end != Broken
      && Matches(s, c.(p := PopBranch(c.p)), d, m.(ret := m.end != Completed && m.ret), at + |LinesOf(st)|)
    decreases |c.results|, st, 0
  {
    hide Step; hide Reaches; hide Holds; hide LinesOf; hide InterpretStmt; hide Interpret; hide Ready; hide Runnable;
    hide Matches; hide RegularStmt; hide SameStacks; hide Fits;
    HoldsBranch(s, at, st);
    if !st.hasElse {
      d := PassFi(s, c, st, at);
    } else {
      StepElse(s, c);
      ReachesStep(s, c);
      var e, mid := Step(s, c), c.p.pos + 1 + |Lines(st.els)|;
      ElseRuns(s, c, e, st, at);
      var m := BlockMeaning(s, e, st.els);
      d := Run(s, e, st.els);
      ReachesTrans(s, c, e, d);
      if m.end == Completed {
        var t := d;
        StillElse(s, c, e, t, m, st, mid);
        StepFi(s, t);
        ReachesNext(s, c, t);
        d := Step(s, t);
        PartMatches(s, e, t, d, m, mid, at + |LinesOf(st)|);
      } else {
        PartStops(s, e, d, m, mid, at + |LinesOf(st)|);
        assert m.(ret := m.end != Completed && m.ret) == m;
      }
      SameBelow(s, c, e, d, m.(ret := m.end != Completed && m.ret), at + |LinesOf(st)|);
    }
  }

  lemma PassFi(s: Script, c: Config, st: Stmt, at: nat) returns (d: Config)
    requires OnBranch(s, c, st, at) && !st.hasElse && c.p.pos == at + |LinesOf(st)| - 1
    ensures Reaches(s, c, d)
    ensures
      var m := Interpret(st.els, c.p.pos + 1, c.p.fail, false, ModeAt(s, c.p), c.results);
      && m.end != Broken
      && Matches(s, c.(p := PopBranch(c.p)), d, m.(ret := m.end != Completed && m.ret), at + |LinesOf(st)|)
  {
    hide Step; hide Reaches; hide Holds; hide LinesOf;
    HoldsBranch(s, at, st);
    StepFi(s, c);
    ReachesStep(s, c);
    d := Step(s, c);
    assert c.trace + [] == c.trace;
  }

  lemma StillElse(s: Script, c: Config, e: Config, t: Config, m: Meaning, st: Stmt, mid: nat)
    requires AtStatement(c) && c.p.iendx > 0 && m.end == Completed && Matches(s, e, t, m, mid)
    requires e == c.(p := c.p.WithItefTop(c.p.ItefTop().(state := ItefElse)).(pos := c.p.pos + 1), ret := false)
    ensures AtStatement(t) && t.p.ItefTop().state == ItefElse && t.p.iendx > 0 && t.p.pos == mid
    ensures SameStacks(PopBranch(t.p), PopBranch(t.p).(pos := mid + 1))
  {
    hide Step;
  }

  /** What lies below the branch is the same before and behind `else`. */
  lemma SameBelow(s: Script, c: Config, e: Config, d: Config, m: Meaning, end: nat)
    requires c.p.InRange() && c.p.iendx > 0 && m.end != Broken
    requires e == c.(p := c.p.WithItefTop(c.p.ItefTop().(state := ItefElse)).(pos := c.p.pos + 1), ret := false)
    requires Matches(s, e.(p := PopBranch(e.p)), d, m, end)
    ensures Matches(s, c.(p := PopBranch(c.p)), d, m, end)
  {
    hide Step;
  }

  /** Past the loop keyword and `do`: the test ran and the loop is on the stack. */
  lemma EnterLoop(s: Script, c: Config, st: Stmt) returns (d: Config)
    requires Ready(s, c) && c.results != [] && st.Loop? && Holds(s, c.p.pos, LinesOf(st))
    requires WellFormedStmt(st) && FitsStmt(c.p, st)
    ensures Reaches(s, c, d)
    ensures d.p == PushedLoop(c.p, LoopSlot(LoopDo, st.until == c.results[0], c.p.iendx, c.p.pos))
                   .(pos := c.p.pos + 2, fail := false)
    ensures d == Config(d.p, c.results[1..], c.trace + [Event(c.p.pos, st.test, c.results[0])], false, false)
  {
    hide Step; hide Reaches; hide Holds; hide LinesOf; hide LoopLine;
    HoldsLoop(s, c.p.pos, st);
    StepLoop(s, c, st.until, st.test);
    ReachesStep(s, c);
    var c1 := Step(s, c);
    StepDo(s, c1);
    ReachesNext(s, c, c1);
    d := Step(s, c1);
    var k := c.p.lpndx + 1;
    assert d.p.lp == c.p.lp[k := LoopSlot(LoopDo, st.until == c.results[0], c.p.iendx, c.p.pos)];
  }

  /** From the end of a loop body over `done`: back to the top or on to the next statement. */
  lemma LeaveBody(s: Script, p: Parser, c: Config, st: Stmt, slot: LoopSlot) returns (d: Config)
    requires AtStatement(c) && st.Loop? && Holds(s, slot.topoffs, LinesOf(st))
    requires p.InRange() && p.lpndx + 1 < |p.lp| && slot.state == LoopDo
    requires SameStacks(PushedLoop(p, slot), c.p) && c.p.pos == slot.topoffs + 2 + |Lines(st.body)|
    ensures Reaches(s, c, d)
    ensures SameStacks(p, d.p) && d.p.fail == c.p.fail
    ensures d.p.pos == if slot.enable then slot.topoffs else slot.topoffs + |LinesOf(st)|
    ensures d == c.(p := d.p, ret := false)
  {
    hide Step; hide Reaches; hide Holds; hide LinesOf; hide LoopLine;
    HoldsLoop(s, slot.topoffs, st);
    assert c.p.LoopTop() == slot;
    StepDone(s, c);
    ReachesStep(s, c);
    d := Step(s, c);
  }

  /** The meaning of a pass through the loop, before the test comes round again. */
  function IterationMeaning(s: Script, c: Config, st: Stmt): (m: Meaning)
    requires st.Loop? && c.results != []
  {
    var m := Interpret(st.body, c.p.pos + 2, false, false, Mode(s.ignore, true), c.results[1..]);
    m.After([Event(c.p.pos, st.test, c.results[0])]).(ret := m.end != Completed && m.end != Broken && m.ret)
  }

  lemma MeaningLoop(s: Script, c: Config, st: Stmt)
    requires st.Loop? && c.results != [] && st.until == c.results[0]
    ensures
      var m := IterationMeaning(s, c, st);
      && |m.rest| < |c.results|
      && StmtMeaning(s, c, st) == if m.end == Broken then m.(end := Completed)
         else if m.end != Completed then m
         else InterpretStmt(st, c.p.pos, m.fail, m.ret, ModeAt(s, c.p), m.rest).After(m.events)
  {
    hide Interpret;
  }

  lemma {:induction false} RunLoop(s: Script, c: Config, st: Stmt) returns (d: Config)
    requires Ready(s, c) && st.Loop? && Holds(s, c.p.pos, LinesOf(st))
    requires WellFormedStmt(st) && RegularStmt(st, InLoop(c.p)) && FitsStmt(c.p, st)
    ensures Reaches(s, c, d)
    ensures Matches(s, c, d, StmtMeaning(s, c, st), c.p.pos + |LinesOf(st)|)
    decreases |c.results|, st, 1
  {
    hide Step; hide Reaches; hide Holds; hide LinesOf; hide Interpret; hide InterpretStmt;
    if c.results == [] || st.until != c.results[0] {
      d := RunLoopOut(s, c, st);
    } else {
      hide Ready; hide Matches; hide FitsStmt; hide SameStacks; hide IterationMeaning;
      var m, end := IterationMeaning(s, c, st), c.p.pos + |LinesOf(st)|;
      MeaningLoop(s, c, st);
      d := RunIteration(s, c, st);
      if m.end == Completed {
        var u := d;
        StillReady(s, c, u, m, c.p.pos);
        FitsSame(c.p, u.p, Nil, st);
        d := RunLoop(s, u, st);
        ReachesTrans(s, c, u, d);
        MatchesThen(s, c, u, d, m, StmtMeaning(s, u, st), c.p.pos, end);
      }
    }
  }

  /** A loop whose test has no result yet or says stop. */
  lemma RunLoopOut(s: Script, c: Config, st: Stmt) returns (d: Config)
    requires Ready(s, c) && st.Loop? && Holds(s, c.p.pos, LinesOf(st))
    requires WellFormedStmt(st) && NoDirectLoop(st.body) && FitsStmt(c.p, st)
    requires c.results == [] || st.until != c.results[0]
    ensures Reaches(s, c, d)
    ensures Matches(s, c, d, StmtMeaning(s, c, st), c.p.pos + |LinesOf(st)|)
  {
    hide Step; hide Reaches; hide Holds; hide LinesOf; hide LoopLine; hide Interpret;
    HoldsLoop(s, c.p.pos, st);
    if c.results == [] {
      StepLoop(s, c, st.until, st.test);
      ReachesRefl(s, c);
      d := c;
    } else {
      var e := EnterLoop(s, c, st);
      var t := Skip(s, e, st.body);
      ReachesTrans(s, c, e, t);
      d := LeaveBody(s, c.p, t, st, e.p.LoopTop());
      ReachesTrans(s, c, t, d);
    }
  }

  /** One pass through a loop whose test says go: back to the top if the body completes. */
  lemma {:induction false} RunIteration(s: Script, c: Config, st: Stmt) returns (d: Config)
    requires Ready(s, c) && st.Loop? && Holds(s, c.p.pos, LinesOf(st))
    requires WellFormedStmt(st) && RegularStmt(st, InLoop(c.p)) && FitsStmt(c.p, st)
    requires c.results != [] && st.until == c.results[0]
    ensures Reaches(s, c, d)
    ensures
      var m := IterationMeaning(s, c, st);
      if m.end == Broken then Matches(s, c, d, m.(end := Completed), c.p.pos + |LinesOf(st)|)
      else Matches(s, c, d, m, c.p.pos)
    decreases |c.results|, st, 0
  {
    hide Step; hide Reaches; hide Holds; hide LinesOf; hide LoopLine; hide Interpret; hide Matches; hide SameStacks;
    hide Runnable; hide Ready;
    HoldsLoop(s, c.p.pos, st);
    var e := EnterLoop(s, c, st);
    InBodyNow(s, c, e, st);
    d := Run(s, e, st.body);
    ReachesTrans(s, c, e, d);
    var m, ev := BlockMeaning(s, e, st.body), Event(c.p.pos, st.test, c.results[0]);
    var mid := c.p.pos + 2 + |Lines(st.body)|;
    if m.end == Completed || m.end == Broken {
      var t, slot := d, LoopSlot(LoopDo, m.end == Completed, c.p.iendx, c.p.pos);
      BodyLeft(s, c, e, t, m, mid, slot);
      d := LeaveBody(s, c.p, t, st, slot);
      ReachesTrans(s, c, t, d);
      PassMatches(s, c, e, t, d, m, ev, mid, d.p.pos);
    } else {
      PassStops(s, c, e, d, m, ev, mid, c.p.pos);
    }
  }

  lemma InBodyNow(s: Script, c: Config, e: Config, st: Stmt)
    requires Ready(s, c) && c.results != [] && st.Loop? && st.until == c.results[0] && c.p.lpndx + 1 < |c.p.lp|
    requires WellFormedStmt(st) && RegularStmt(st, InLoop(c.p)) && FitsStmt(c.p, st) && !e.halted
    requires e.p == PushedLoop(c.p, LoopSlot(LoopDo, true, c.p.iendx, c.p.pos)).(pos := c.p.pos + 2, fail := false)
    ensures Ready(s, e) && Runnable(e.p, st.body) && ModeAt(s, e.p) == Mode(s.ignore, true)
  {
    hide Regular;
  }

  lemma BodyLeft(s: Script, c: Config, e: Config, t: Config, m: Meaning, mid: nat, slot: LoopSlot)
    requires Ready(s, c) && c.p.lpndx + 1 < |c.p.lp| && Matches(s, e, t, m, mid)
    requires e.p == PushedLoop(c.p, LoopSlot(LoopDo, true, c.p.iendx, c.p.pos)).(pos := c.p.pos + 2, fail := false)
    requires m.end == Completed || m.end == Broken
    requires slot == LoopSlot(LoopDo, m.end == Completed, c.p.iendx, c.p.pos)
    ensures AtStatement(t) && SameStacks(PushedLoop(c.p, slot), t.p) && t.p.pos == mid
  {
    hide Step;
  }

  lemma PassMatches(s: Script, c: Config, e: Config, t: Config, d: Config, m: Meaning, ev: Event, mid: nat, pos: nat)
    requires Matches(s, e, t, m, mid) && e.trace == c.trace + [ev] && (m.end == Completed || m.end == Broken)
    requires SameStacks(c.p, d.p) && d == t.(p := d.p, ret := false) && d.p.fail == t.p.fail && d.p.pos == pos
    ensures Matches(s, c, d, m.After([ev]).(ret := false, end := Completed), pos)
  {
    hide Step;
  }

  lemma PassStops(s: Script, c: Config, e: Config, d: Config, m: Meaning, ev: Event, mid: nat, pos: nat)
    requires Matches(s, e, d, m, mid) && e.trace == c.trace + [ev] && c.p.InRange() && m.end != Completed
      && m.end != Broken
    ensures Matches(s, c, d, m.After([ev]), pos)
  {
    hide Step;
  }

  /** A parser that is in no loop and no branch, at the start of a file. */
  predicate Idle(p: Parser) {
    p.Inv() && p.lpndx == 0 && p.iendx == 0 && !p.ie[0].disabled && p.pos == 0
  }

  /** `nsh_script` starts with the return value ERROR. */
  function Begin(p: Parser, rs: seq<bool>): (c: Config) {
    Config(p, rs, [], true, false)
  }

  function Meant(s: Script, b: Block, p: Parser, rs: seq<bool>): (m: Meaning) {
    Interpret(b, 0, p.fail, true, Mode(s.ignore, false), rs)
  }

  /** The run of the whole script for the given results has come to rest at `d` as the tree says. */
  predicate RestsAs(s: Script, p: Parser, d: Config, m: Meaning) {
    && d.p.InRange() && Step(s, d) == d
    && d.trace == m.events && d.results == m.rest && d.p.fail == m.fail && d.ret == m.ret
    && d.halted == (m.end != Waiting)
    && (m.end == Completed ==> SameStacks(p, d.p))
  }

  lemma TraceGrows(s: Script, c: Config)
    requires c.p.InRange()
    ensures c.trace <= Step(s, c).trace
  {
    hide ParseCommand; hide SaveResult;
  }

  lemma {:induction false} PrefixOfRest(s: Script, c: Config, n: nat, k: nat)
    requires c.p.InRange() && Step(s, Steps(s, c, n)) == Steps(s, c, n)
    ensures Steps(s, c, k).trace <= Steps(s, c, n).trace
    decreases n, k
  {
    hide Step;
    if n > 0 && k > 0 {
      PrefixOfRest(s, Step(s, c), n - 1, k - 1);
    } else if n > 0 {
      TraceGrows(s, c);
      PrefixOfRest(s, Step(s, c), n - 1, 0);
    } else if k > 0 {
      PrefixOfRest(s, c, 0, k - 1);
    }
  }

  /**
    Refinement.  For every list of results the machine comes to rest exactly where the
    interpreter does, having executed the same commands; along the way it has executed a
    prefix of them; and a completed run leaves both stacks as it found them.
  */
  lemma ScriptRefinesTree(s: Script, b: Block, p: Parser, rs: seq<bool>) returns (n: nat)
    requires s.cmds == Lines(b) && (s.ignore ==> CommandsEndLines(s))
    requires WellFormed(b) && Regular(b, false) && Idle(p) && Fits(p, b)
    ensures RestsAs(s, p, Steps(s, Begin(p, rs), n), Meant(s, b, p, rs))
    ensures forall k: nat :: Steps(s, Begin(p, rs), k).trace <= Meant(s, b, p, rs).events
  {
    var c, m := Begin(p, rs), Meant(s, b, p, rs);
    assert s.cmds[0..|Lines(b)|] == Lines(b);
    n := RestsWithinTree(s, b, p, rs);
    forall k: nat ensures Steps(s, c, k).trace <= m.events {
      hide Step; hide Steps;
      PrefixOfRest(s, c, n, k);
    }
  }

  lemma RestsWithinTree(s: Script, b: Block, p: Parser, rs: seq<bool>) returns (n: nat)
    requires Holds(s, 0, Lines(b)) && |s.cmds| == |Lines(b)| && (s.ignore ==> CommandsEndLines(s))
    requires WellFormed(b) && Regular(b, false) && Idle(p) && Fits(p, b)
    ensures RestsAs(s, p, Steps(s, Begin(p, rs), n), Meant(s, b, p, rs))
  {
    hide *;
    var c, m := Begin(p, rs), Meant(s, b, p, rs);
    BeginReady(s, b, p, rs);
    var d := Run(s, c, b);
    Rests(s, p, c, d, m);
    ReachesNext(s, c, d);
    n := StepsTo(s, c, Step(s, d));
  }

  lemma BeginReady(s: Script, b: Block, p: Parser, rs: seq<bool>)
    requires (s.ignore ==> CommandsEndLines(s)) && WellFormed(b) && Regular(b, false) && Idle(p) && Fits(p, b)
    ensures
      var c := Begin(p, rs);
      && Ready(s, c) && Runnable(p, b) && BlockMeaning(s, c, b) == Meant(s, b, p, rs)
      && c.p == p && p.InRange() && p.pos == 0 && c.trace == [] && Meant(s, b, p, rs).end != Broken
  {
    hide Regular; hide Fits; hide Interpret;
    NotBroken(b, 0, p.fail, true, Mode(s.ignore, false), rs);
  }

  lemma StepsTo(s: Script, c: Config, d: Config) returns (n: nat)
    requires c.p.InRange() && Reaches(s, c, d)
    ensures Steps(s, c, n) == d
  {
    hide Steps; hide Step;
    n :| Steps(s, c, n) == d;
  }

  /** At the end of the script the machine stops. */
  lemma Rests(s: Script, p: Parser, c: Config, d: Config, m: Meaning)
    requires Matches(s, c, d, m, |s.cmds|) && m.end != Broken && c.p == p && c.trace == []
    ensures d.p.InRange() && RestsAs(s, p, Step(s, d), m)
  {
    hide Perform; hide Asks;
    assert [] + m.events == m.events;
  }
}
