/**
  Where the line machine departs from the tree.

  A loop that stands directly in the body of another loop is not switched off with that
  body: in the WHILE and UNTIL states `nsh_loop_enabled` answers true, so the test of the
  inner loop runs although the outer loop is being passed over.  This module shows that
  such a loop always makes some run differ from the tree.
*/
module ScriptExact {
  import opened ScriptMachine
  import opened ScriptTree
  import opened ScriptRefinement
  import opened ScriptTelling

  /**
    `d` shows that the machine and the tree part ways: the machine has spent all results and
    its last event stands at `line`, while the tree either has finished with one result to
    spare or has its last event elsewhere.
  */
  ghost predicate Parts(c: Config, d: Config, line: nat, m: Meaning) {
    && c.results != [] && d.p.InRange()
    && |d.trace| == |c.trace| + |c.results| && c.trace <= d.trace
    && d.trace[|d.trace| - 1].line == line
    && |m.events| + |m.rest| == |c.results|
    && (m.rest == [] ==> m.events[|m.events| - 1].line != line)
    && (m.rest != [] ==> (m.end == Completed || m.end == Broken) && |m.rest| == 1)
  }

  /** A loop in the skipped body: passing over the body, the machine runs the inner test. */
  lemma {:induction false} RunsInnerTest(s: Script, c: Config, b: Block) returns (d: Config, line: nat)
    requires AtStatement(c) && !c.p.LoopEnabled() && c.p.ItefEnabled() && |c.results| == 1
    requires Holds(s, c.p.pos, Lines(b)) && WellFormed(b) && Fits(c.p, b) && !NoDirectLoop(b)
    ensures Reaches(s, c, d) && d.p.InRange()
    ensures c.p.pos <= line < c.p.pos + |Lines(b)|
    ensures exists e :: d.trace == c.trace + [e] && e.line == line
    decreases b
  {
    hide Step; hide Reaches; hide Holds;
    var st, rest := b.head, b.tail;
    HoldsSplit(s, c.p.pos, LinesOf(st), Lines(rest));
    FitsCons(c.p, st, rest);
    assert WellFormedStmt(st);
    if st.Loop? {
      HoldsLoop(s, c.p.pos, st);
      StepLoop(s, c, st.until, st.test);
      ReachesStep(s, c);
      d, line := Step(s, c), c.p.pos;
      assert d.trace == c.trace + [Event(line, st.test, c.results[0])];
    } else {
      var e := SkipStmt(s, c, st);
      d, line := RunsInnerTest(s, e, rest);
      ReachesTrans(s, c, e, d);
    }
  }

  lemma {:induction false} Diverges(s: Script, c: Config, b: Block) returns (d: Config, line: nat)
    requires Ready(s, c) && Holds(s, c.p.pos, Lines(b)) && WellFormed(b) && Fits(c.p, b)
    requires !Regular(b, InLoop(c.p)) && !BreakFirst(b, InLoop(c.p)) && c.results == Telling(b, InLoop(c.p))
    ensures Reaches(s, c, d) && c.p.pos <= line < c.p.pos + |Lines(b)|
    ensures Parts(c, d, line, BlockMeaning(s, c, b))
    decreases b, 0
  {
    hide Step; hide Reaches; hide Holds; hide Interpret; hide InterpretStmt; hide Ready; hide Matches; hide LinesOf;
    hide Fits; hide FitsStmt; hide SameStacks; hide Parts; hide RegularStmt; hide BreakFirstOf; hide TellingOf;
    hide FinishingOf; hide Bounded; hide InLoop;
    var st, rest := b.head, b.tail;
    var mid, m := c.p.pos + |LinesOf(st)|, StmtMeaning(s, c, st);
    MeaningCons(s, c, st, rest);
    FitsCons(c.p, st, rest);
    HoldsSplit(s, c.p.pos, LinesOf(st), Lines(rest));
    if !RegularStmt(st, InLoop(c.p)) {
      d, line := DivergesStmt(s, c, st);
      if m.end == Completed {
        BlockBounded(rest, mid, m.fail, m.ret, ModeAt(s, c.p), m.rest);
        var m' := Interpret(rest, mid, m.fail, m.ret, ModeAt(s, c.p), m.rest);
        PartsStay(c, d, line, m, m', mid, mid + |Lines(rest)|);
      }
    } else {
      RegularStays(st, InLoop(c.p));
      FinishesStmt(st, c.p.pos, c.p.fail, c.ret, ModeAt(s, c.p), Telling(rest, InLoop(c.p)));
      StmtBounded(st, c.p.pos, c.p.fail, c.ret, ModeAt(s, c.p), c.results);
      var e := RunStmt(s, c, st);
      StillReady(s, c, e, m, mid);
      FitsSame(c.p, e.p, rest, st);
      d, line := Diverges(s, e, rest);
      ReachesTrans(s, c, e, d);
      SpentAll(m, c.results, c.p.pos, mid);
      PartsThen(c, e, d, line, m, BlockMeaning(s, e, rest));
    }
  }

  /** What the tree does behind the place of the difference does not undo it. */
  lemma PartsStay(c: Config, d: Config, line: nat, m: Meaning, m': Meaning, lo: nat, hi: nat)
    requires Parts(c, d, line, m) && m.end == Completed && line < lo && Bounded(m', m.rest, lo, hi)
    requires m'.end == Waiting ==> m'.rest == []
    ensures Parts(c, d, line, m'.After(m.events))
  {
  }

  lemma SpentAll(m: Meaning, rs: seq<bool>, lo: nat, hi: nat)
    requires Bounded(m, rs, lo, hi)
    ensures |m.events| + |m.rest| == |rs|
  {
  }

  lemma PartsThen(c: Config, e: Config, d: Config, line: nat, m: Meaning, m': Meaning)
    requires Parts(e, d, line, m') && e.trace == c.trace + m.events && e.results == m.rest
    requires |m.events| + |m.rest| == |c.results|
    ensures Parts(c, d, line, m'.After(m.events))
  {
  }

  lemma {:induction false} DivergesStmt(s: Script, c: Config, st: Stmt) returns (d: Config, line: nat)
    requires Ready(s, c) && Holds(s, c.p.pos, LinesOf(st)) && WellFormedStmt(st) && FitsStmt(c.p, st)
    requires !RegularStmt(st, InLoop(c.p)) && !BreakFirstOf(st, InLoop(c.p)) && c.results == TellingOf(st, InLoop(c.p))
    ensures Reaches(s, c, d) && c.p.pos <= line < c.p.pos + |LinesOf(st)|
    ensures Parts(c, d, line, StmtMeaning(s, c, st))
    decreases st, 1
  {
    hide Ready; hide Step; hide Reaches; hide Holds; hide LinesOf; hide Interpret; hide InterpretStmt; hide Parts;
    hide FitsStmt;
    if st.Branch? {
      d, line := DivergesBranch(s, c, st);
    } else if NoDirectLoop(st.body) {
      d, line := DivergesBody(s, c, st);
    } else {
      d, line := DivergesHere(s, c, st);
    }
  }

  lemma DivergesHere(s: Script, c: Config, st: Stmt) returns (d: Config, line: nat)
    requires Ready(s, c) && Holds(s, c.p.pos, LinesOf(st)) && WellFormedStmt(st) && FitsStmt(c.p, st)
    requires st.Loop? && !NoDirectLoop(st.body) && c.results == [!st.until, false]
    ensures Reaches(s, c, d) && c.p.pos <= line < c.p.pos + |LinesOf(st)|
    ensures Parts(c, d, line, StmtMeaning(s, c, st))
  {
    hide Step; hide Reaches; hide Holds; hide LinesOf; hide LoopLine; hide Interpret;
    HoldsLoop(s, c.p.pos, st);
    var e := EnterLoop(s, c, st);
    d, line := RunsInnerTest(s, e, st.body);
    ReachesTrans(s, c, e, d);
  }

  lemma {:induction false} DivergesBody(s: Script, c: Config, st: Stmt) returns (d: Config, line: nat)
    requires Ready(s, c) && Holds(s, c.p.pos, LinesOf(st)) && WellFormedStmt(st) && FitsStmt(c.p, st)
    requires st.Loop? && NoDirectLoop(st.body) && !Regular(st.body, true) && !BreakFirst(st.body, true)
    requires c.results == [st.until] + Telling(st.body, true)
    ensures Reaches(s, c, d) && c.p.pos <= line < c.p.pos + |LinesOf(st)|
    ensures Parts(c, d, line, StmtMeaning(s, c, st))
    decreases st, 0
  {
    hide Step; hide Reaches; hide Holds; hide LinesOf; hide LoopLine; hide Interpret; hide InterpretStmt; hide Parts;
    hide Telling; hide BreakFirst; hide Regular; hide Bounded;
    HoldsLoop(s, c.p.pos, st);
    assert c.results[1..] == Telling(st.body, true);
    var e := EnterLoop(s, c, st);
    d, line := Diverges(s, e, st.body);
    ReachesTrans(s, c, e, d);
    var m, ev := BlockMeaning(s, e, st.body), Event(c.p.pos, st.test, c.results[0]);
    PartsAfter(c, e, d, line, m, ev, m.end != Completed && m.end != Broken && m.ret);
    LoopParts(s, c, st, d, line);
  }

  /** What has parted in the first pass stays apart. */
  lemma LoopParts(s: Script, c: Config, st: Stmt, d: Config, line: nat)
    requires st.Loop? && WellFormedStmt(st) && c.results != [] && st.until == c.results[0] && c.p.pos < line
    requires Parts(c, d, line, IterationMeaning(s, c, st))
    ensures Parts(c, d, line, StmtMeaning(s, c, st))
  {
    hide LinesOf; hide Interpret; hide InterpretStmt; hide Parts; hide Bounded;
    MeaningLoop(s, c, st);
    var mi := IterationMeaning(s, c, st);
    if mi.end == Completed {
      StmtBounded(st, c.p.pos, mi.fail, mi.ret, ModeAt(s, c.p), mi.rest);
      if mi.rest != [] {
        FirstEventIsTest(st, c.p.pos, mi.fail, mi.ret, ModeAt(s, c.p), mi.rest);
      }
      var m' := InterpretStmt(st, c.p.pos, mi.fail, mi.ret, ModeAt(s, c.p), mi.rest);
      PartsRound(c, d, line, mi, m', c.p.pos, c.p.pos + |LinesOf(st)|);
    } else if mi.end == Broken {
      PartsSame(c, d, line, mi);
    }
  }

  /** Coming round to the test of the loop does not undo the difference. */
  lemma PartsRound(c: Config, d: Config, line: nat, m: Meaning, m': Meaning, lo: nat, hi: nat)
    requires Parts(c, d, line, m) && m.end == Completed && lo < line && Bounded(m', m.rest, lo, hi)
    requires m.rest != [] ==> m'.events != [] && m'.events[0].line == lo
    ensures Parts(c, d, line, m'.After(m.events))
  {
  }

  lemma PartsSame(c: Config, d: Config, line: nat, m: Meaning)
    requires Parts(c, d, line, m) && m.end == Broken
    ensures Parts(c, d, line, m.(end := Completed))
  {
  }

  lemma FirstEventIsTest(st: Stmt, at: nat, fail: bool, ret: bool, mode: Mode, rs: seq<bool>)
    requires st.Loop? && rs != []
    ensures
      var m := InterpretStmt(st, at, fail, ret, mode, rs);
      m.events != [] && m.events[0].line == at
  {
    hide Interpret;
  }

  lemma {:induction false} DivergesBranch(s: Script, c: Config, st: Stmt) returns (d: Config, line: nat)
    requires Ready(s, c) && Holds(s, c.p.pos, LinesOf(st)) && WellFormedStmt(st) && FitsStmt(c.p, st)
    requires st.Branch? && !RegularStmt(st, InLoop(c.p)) && !BreakFirstOf(st, InLoop(c.p))
    requires c.results == TellingOf(st, InLoop(c.p))
    ensures Reaches(s, c, d) && c.p.pos <= line < c.p.pos + |LinesOf(st)|
    ensures Parts(c, d, line, StmtMeaning(s, c, st))
    decreases st, 0
  {
    hide Step; hide Reaches; hide Holds; hide LinesOf; hide IfLine; hide Interpret; hide InterpretStmt; hide Parts;
    hide Regular; hide RegularStmt; hide BreakFirst; hide BreakFirstOf; hide Telling; hide TellingOf;
    hide NoDirectBreak;
    TellingBranch(st, InLoop(c.p));
    MeaningBranch(s, c, st);
    HoldsBranch(s, c.p.pos, st);
    var e := EnterBranch(s, c, st);
    var ev := Event(c.p.pos, st.test, c.results[0]);
    if !Regular(st.thn, InLoop(c.p)) {
      assert c.results[1..] == Telling(st.thn, InLoop(c.p));
      d, line := Diverges(s, e, st.thn);
      ReachesTrans(s, c, e, d);
      var m := BlockMeaning(s, e, st.thn);
      PartsAfter(c, e, d, line, m, ev, m.end != Completed && m.ret);
    } else {
      assert c.results[1..] == Telling(st.els, InLoop(c.p));
      var u := EnterElse(s, e, st, c.p.pos);
      ReachesTrans(s, c, e, u);
      d, line := Diverges(s, u, st.els);
      ReachesTrans(s, c, u, d);
      var m := BlockMeaning(s, u, st.els);
      PartsAfter(c, u, d, line, m, ev, m.end != Completed && m.ret);
    }
  }

  lemma TellingBranch(st: Stmt, l: bool)
    requires st.Branch? && !RegularStmt(st, l) && !BreakFirstOf(st, l)
    ensures !Regular(st.thn, l) ==>
      !BreakFirst(st.thn, l) && TellingOf(st, l) == [st.inverted] + Telling(st.thn, l)
    ensures Regular(st.thn, l) ==>
      && !Regular(st.els, l) && st.els != Nil
      && !BreakFirst(st.els, l) && TellingOf(st, l) == [!st.inverted] + Telling(st.els, l)
  {
    hide Telling; hide BreakFirst;
  }

  lemma PartsAfter(c: Config, e: Config, d: Config, line: nat, m: Meaning, ev: Event, ret: bool)
    requires Parts(e, d, line, m) && c.results != [] && e.results == c.results[1..] && e.trace == c.trace + [ev]
    ensures Parts(c, d, line, m.After([ev]).(ret := ret))
  {
  }

  lemma EnterElse(s: Script, c: Config, st: Stmt, at: nat) returns (d: Config)
    requires AtStatement(c) && st.Branch? && st.hasElse && Holds(s, at, LinesOf(st)) && WellFormedStmt(st)
    requires c.p.iendx > 0 && FitsStmt(PopBranch(c.p), st) && c.p.pos == at + 2
    requires c.p.LoopEnabled() && c.p.ItefTop().state == ItefThen && !c.p.ItefTop().disabled && c.p.ItefTop().ifcond
    ensures Reaches(s, c, d) && AtStatement(d) && d.p.CmdEnabled() && Fits(d.p, st.els)
    ensures d.p.pos == at + 3 + |Lines(st.thn)| && d == c.(p := d.p, ret := false) && d.p.fail == c.p.fail
    ensures SameStacks(c.p.WithItefTop(c.p.ItefTop().(state := ItefElse)), d.p) && InLoop(d.p) == InLoop(c.p)
  {
    hide Step; hide Reaches; hide Holds; hide LinesOf; hide IfLine;
    HoldsBranch(s, at, st);
    var t := Skip(s, c, st.thn);
    StepElse(s, t);
    ReachesNext(s, c, t);
    d := Step(s, t);
  }

  /** For these results the run of the script comes to rest as the tree says. */
  ghost predicate Agrees(s: Script, b: Block, p: Parser, rs: seq<bool>)
    requires p.InRange()
  {
    exists n: nat :: RestsAs(s, p, Steps(s, Begin(p, rs), n), Meant(s, b, p, rs))
  }

  lemma LoopInLoopShows(s: Script, b: Block, p: Parser, n: nat)
    requires s.cmds == Lines(b) && (s.ignore ==> CommandsEndLines(s))
    requires WellFormed(b) && Idle(p) && Fits(p, b) && !Regular(b, false) && !BreakFirst(b, false)
    ensures
      var rs := Telling(b, false);
      !RestsAs(s, p, Steps(s, Begin(p, rs), n), Meant(s, b, p, rs))
  {
    hide Step; hide Steps; hide Interpret;
    var rs := Telling(b, false);
    var c, m := Begin(p, rs), Meant(s, b, p, rs);
    assert s.cmds[0..|Lines(b)|] == Lines(b);
    var d, line := Diverges(s, c, b);
    var k: nat :| Steps(s, c, k) == d;
    if RestsAs(s, p, Steps(s, c, n), m) {
      PrefixOfRest(s, c, n, k);
    }
  }

  /** while <a> / do / if <b> / then / break / fi / done, one command to a line. */
  function BreakScript(a: Words, b: Words): (s: Script) {
    Script([LoopLine(false, a), [Do], IfLine(false, b), [Then], [BreakName], [Fi], [Done]], {0, 1, 2, 3, 4, 5, 6},
      false)
  }

  lemma ParseStrayFi(p: Parser, foffs: nat)
    requires p.InRange() && !p.AwaitsDo() && p.ItefTop().state == ItefNormal && p.ie[0].state == ItefNormal
    ensures ParseCommand(p, foffs, [Fi]) == Finished(p.ResetItefs().(fail := true), true)
  {
    assert [Fi][1..] == [];
  }

  lemma StepStrayFi(s: Script, c: Config)
    requires AtStatement(c) && c.p.ItefTop().state == ItefNormal && c.p.ie[0].state == ItefNormal && !s.ignore
    requires c.p.pos < |s.cmds| && s.cmds[c.p.pos] == [Fi]
    ensures Step(s, c).halted && Step(s, c).ret && Step(s, c).trace == c.trace
  {
    hide ParseCommand;
    ParseStrayFi(c.p.(pos := c.p.pos + 1), c.p.pos);
  }

  /**
    `break` below an `if` does not leave the loop: whatever the two commands are, as soon as
    both succeed the script stops with an error at `fi`, having executed just the two tests.
  */
  lemma BreakBelowIfStopsScript(p: Parser, a: Words, b: Words, rs: seq<bool>)
    requires Idle(p) && |p.lp| > 1 && |p.ie| > 1 && PlainCommand(a) && PlainCommand(b)
    requires |rs| >= 2 && !rs[0] && !rs[1]
    ensures
      var d := Steps(BreakScript(a, b), Begin(p, rs), 6);
      d.halted && d.ret && d.trace == [Event(0, a, false), Event(2, b, false)]
  {
    hide Step; hide IfLine; hide LoopLine;
    var s, c0 := BreakScript(a, b), Begin(p, rs);
    StepLoop(s, c0, false, a);
    var c1 := Step(s, c0);
    StepDo(s, c1);
    var c2 := Step(s, c1);
    StepIf(s, c2, false, b);
    var c3 := Step(s, c2);
    StepThen(s, c3);
    var c4 := Step(s, c3);
    StepBreak(s, c4);
    var c5 := Step(s, c4);
    StepStrayFi(s, c5);
    var c6 := Step(s, c5);
    assert c6 == Steps(s, c6, 0) == Steps(s, c5, 1) == Steps(s, c4, 2) == Steps(s, c3, 3);
    assert Steps(s, c3, 3) == Steps(s, c2, 4) == Steps(s, c1, 5) == Steps(s, c0, 6);
  }

  /** <a> ; <b> on one line, with failures ignored. */
  function TwoOnALine(a: Words, b: Words): (t: Script) {
    Script([a, b], {0}, true)
  }

  /** If the first of them fails the second is not run, although the tree runs it. */
  lemma RestOfLineDropped(p: Parser, a: Words, b: Words)
    requires Idle(p) && PlainCommand(a) && PlainCommand(b)
    ensures
      var s, t, rs := TwoOnALine(a, b), Cons(Command(a), Cons(Command(b), Nil)), [true, false];
      && s.cmds == Lines(t) && Regular(t, false)
      && Meant(s, t, p, rs).events == [Event(0, a, true), Event(1, b, false)]
      && Steps(s, Begin(p, rs), 2).halted && Steps(s, Begin(p, rs), 2).trace == [Event(0, a, true)]
      && !Agrees(s, t, p, rs)
  {
    hide ParseCommand; hide SaveResult;
    var s, t, rs := TwoOnALine(a, b), Cons(Command(a), Cons(Command(b), Nil)), [true, false];
    var c0 := Begin(p, rs);
    LinesCons(Command(b), Nil);
    LinesCons(Command(a), Cons(Command(b), Nil));
    FailureDropsLine(s, c0);
    var c1 := Step(s, c0);
    assert s.NextLine(0) == s.NextLine(1) == 2;
    var c2 := Step(s, c1);
    assert c2 == c1.(halted := true);
    assert c2 == Steps(s, c2, 0) == Steps(s, c1, 1) == Steps(s, c0, 2);
    TwoMeant(p, a, b);
    TwoRegular(a, b);
    forall k: nat ensures !RestsAs(s, p, Steps(s, c0, k), Meant(s, t, p, rs)) {
      PrefixOfRest(s, c0, 2, k);
    }
  }

  lemma TwoRegular(a: Words, b: Words)
    ensures Regular(Cons(Command(a), Cons(Command(b), Nil)), false)
  {
    assert RegularStmt(Command(b), false) && Regular(Nil, false);
    assert Regular(Cons(Command(b), Nil), false);
    assert RegularStmt(Command(a), false);
  }

  lemma TwoMeant(p: Parser, a: Words, b: Words)
    ensures
      var s, t := TwoOnALine(a, b), Cons(Command(a), Cons(Command(b), Nil));
      Meant(s, t, p, [true, false]).events == [Event(0, a, true), Event(1, b, false)]
  {
    var mode, rest := Mode(true, false), Cons(Command(b), Nil);
    assert [true, false][1..] == [false] && [false][1..] == [];
    var m := InterpretStmt(Command(a), 0, p.fail, true, mode, [true, false]);
    assert m == Meaning([Event(0, a, true)], [false], Completed, true, true);
    var m' := InterpretStmt(Command(b), 1, true, true, mode, [false]);
    assert m' == Meaning([Event(1, b, false)], [], Completed, false, false);
    assert Interpret(rest, 1, true, true, mode, [false]).events == m'.events + [];
    assert m.events + m'.events == [Event(0, a, true), Event(1, b, false)];
  }
}
