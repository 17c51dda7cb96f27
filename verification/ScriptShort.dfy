/**
  A run whose if-stack holds fewer branches than the text around it stays like that: every
  `fi` still to come takes one away, so it never gets to the end of the script.
*/
module ScriptShort {
  import opened ScriptMachine
  import opened ScriptTree
  import opened ScriptRefinement
  import opened ScriptInvariant
  import opened ScriptFrames

  predicate At(cmds: seq<Words>, k: nat, ws: Words) {
    k < |cmds| && cmds[k] == ws
  }

  /** Command `q` stands in the body of the loop at `t` itself. */
  predicate StandsIn(cmds: seq<Words>, q: nat, t: nat) {
    q <= |cmds| && Frames(cmds, q) != [] && Frames(cmds, q)[|Frames(cmds, q)| - 1] == InBody(t)
  }

  /** The body of the loop at `t` has a `break` of its own. */
  ghost predicate HasBreak(cmds: seq<Words>, t: nat) {
    exists q: nat :: At(cmds, q, [BreakName]) && StandsIn(cmds, q, t)
  }

  predicate Off(slot: LoopSlot) {
    slot.state == LoopDo && !slot.enable
  }

  /** The first `n` loops on the stack are those of the frames, and no `break` still to come makes up the difference. */
  ghost predicate Slots(cmds: seq<Words>, lp: seq<LoopSlot>, f: seq<Frame>, n: nat) {
    if f == [] then n == 0
    else
      var g := f[..|f| - 1];
      match f[|f| - 1]
      case InBranch => Slots(cmds, lp, g, n)
      case InBody(t) =>
        && 0 < n < |lp| && lp[n].topoffs == t && lp[n].iendx <= Depth(g)
        && (lp[n].iendx == Depth(g) ==> Off(lp[n]) || !HasBreak(cmds, t))
        && Slots(cmds, lp, g, n - 1)
  }

  /** A branch waits for `then`, or a loop for `do`, only where that keyword stands. */
  predicate Settled(cmds: seq<Words>, p: Parser) {
    && p.InRange()
    && (p.AwaitsDo() ==> At(cmds, p.pos, [Do]))
    && (forall i :: 0 <= i <= p.iendx && p.ie[i].state == ItefIf ==> i == p.iendx && At(cmds, p.pos, [Then]))
    && (forall n, i :: 0 < n <= p.lpndx && 0 <= i <= p.lp[n].iendx && i < |p.ie| && p.ie[i].state == ItefIf ==>
        i == p.iendx && At(cmds, p.pos, [Then]))
  }

  /** The if-stack is short. */
  ghost predicate Short(cmds: seq<Words>, p: Parser) {
    && p.Inv() && p.pos <= |cmds| && Settled(cmds, p)
    && p.iendx < Depth(Frames(cmds, p.pos))
    && Slots(cmds, p.lp, Frames(cmds, p.pos), p.lpndx)
  }

  lemma {:induction false} SlotsSame(cmds: seq<Words>, lp: seq<LoopSlot>, lp': seq<LoopSlot>, f: seq<Frame>, n: nat)
    requires Slots(cmds, lp, f, n) && |lp'| == |lp| && forall i :: 0 < i <= n && i < |lp| ==> lp[i] == lp'[i]
    ensures Slots(cmds, lp', f, n)
    decreases |f|
  {
    if f != [] {
      SlotsSame(cmds, lp, lp', f[..|f| - 1], if f[|f| - 1].InBody? then n - 1 else n);
    }
  }

  lemma {:induction false} SlotsTop(cmds: seq<Words>, lp: seq<LoopSlot>, f: seq<Frame>, n: nat, slot: LoopSlot)
    requires Slots(cmds, lp, f, n) && 0 < n < |lp|
    requires slot.topoffs == lp[n].topoffs && slot.iendx == lp[n].iendx && (Off(lp[n]) ==> Off(slot))
    ensures Slots(cmds, lp[n := slot], f, n)
    decreases |f|
  {
    var g := f[..|f| - 1];
    if f[|f| - 1].InBody? {
      SlotsSame(cmds, lp, lp[n := slot], g, n - 1);
    } else {
      SlotsTop(cmds, lp, g, n, slot);
    }
  }

  lemma {:induction false} TopAtMost(cmds: seq<Words>, lp: seq<LoopSlot>, f: seq<Frame>, n: nat)
    requires Slots(cmds, lp, f, n) && 0 < n < |lp|
    ensures lp[n].iendx <= Depth(f)
    decreases |f|
  {
    if !f[|f| - 1].InBody? {
      TopAtMost(cmds, lp, f[..|f| - 1], n);
    }
  }

  /** A `break` that runs takes the if-stack to less than the text has. */
  lemma TopBelow(cmds: seq<Words>, lp: seq<LoopSlot>, q: nat, n: nat)
    requires At(cmds, q, [BreakName]) && Slots(cmds, lp, Frames(cmds, q), n) && 0 < n < |lp| && !Off(lp[n])
    ensures lp[n].iendx < Depth(Frames(cmds, q))
  {
    var f := Frames(cmds, q);
    if f[|f| - 1].InBody? {
      assert StandsIn(cmds, q, f[|f| - 1].top);
    } else {
      TopAtMost(cmds, lp, f[..|f| - 1], n);
    }
  }

  // ----- What a command may do to the parser -----

  /** Nothing but moving on and setting `$?`. */
  lemma KeepOn(cmds: seq<Words>, p: Parser, q: Parser)
    requires Short(cmds, p) && q == p.(pos := p.pos + 1, fail := q.fail) && p.pos < |cmds|
    requires cmds[p.pos] == [] || PlainCommand(cmds[p.pos]) || cmds[p.pos] == [BreakName]
    ensures Short(cmds, q)
  {
    hide Slots; hide Frames;
    FramesNext(cmds, p.pos);
  }

  /** `then` and `else`. */
  lemma KeepState(cmds: seq<Words>, p: Parser, q: Parser, slot: ItefSlot)
    requires Short(cmds, p) && q == p.WithItefTop(slot).(pos := p.pos + 1, fail := q.fail)
    requires slot.state != ItefIf && p.ItefTop().state != ItefNormal && q.Inv()
    requires At(cmds, p.pos, [Then]) || At(cmds, p.pos, [Else])
    ensures Short(cmds, q)
  {
    hide Slots; hide Frames;
    FramesNext(cmds, p.pos);
  }

  /** An `if` line. */
  lemma KeepPush(cmds: seq<Words>, p: Parser, q: Parser, slot: ItefSlot)
    requires Short(cmds, p) && Proper(cmds, p.pos) && IsIfLine(cmds[p.pos]) && p.iendx + 1 < |p.ie|
    requires q == PushBranch(p, slot).(pos := p.pos + 1, fail := q.fail) && q.Inv()
    ensures Short(cmds, q)
  {
    hide Slots; hide Frames;
    FramesNext(cmds, p.pos);
    var f := Frames(cmds, p.pos);
    DepthPush(f, InBranch);
    assert (f + [InBranch])[..|f|] == f;
    SlotsBranch(cmds, p.lp, f, p.lpndx);
  }

  lemma SlotsBranch(cmds: seq<Words>, lp: seq<LoopSlot>, f: seq<Frame>, n: nat)
    requires Slots(cmds, lp, f, n)
    ensures Slots(cmds, lp, f + [InBranch], n)
  {
    assert (f + [InBranch])[..|f|] == f;
  }

  /** `fi`. */
  lemma KeepPop(cmds: seq<Words>, p: Parser, q: Parser)
    requires Short(cmds, p) && Proper(cmds, p.pos) && At(cmds, p.pos, [Fi]) && p.iendx > 0
    requires q == p.(iendx := p.iendx - 1, pos := p.pos + 1, fail := q.fail)
    ensures Short(cmds, q)
  {
    FramesNext(cmds, p.pos);
  }

  /** A loop line. */
  lemma KeepLoop(cmds: seq<Words>, p: Parser, q: Parser, slot: LoopSlot)
    requires Short(cmds, p) && Proper(cmds, p.pos) && IsLoopLine(cmds[p.pos]) && p.lpndx + 1 < |p.lp|
    requires q == PushedLoop(p, slot).(pos := p.pos + 1, fail := q.fail) && q.Inv()
    requires slot.topoffs == p.pos && slot.iendx == p.iendx
    ensures Short(cmds, q)
  {
    hide Frames;
    FramesNext(cmds, p.pos);
    var f, n := Frames(cmds, p.pos), p.lpndx + 1;
    DepthPush(f, InBody(p.pos));
    assert (f + [InBody(p.pos)])[..|f|] == f;
    SlotsSame(cmds, p.lp, q.lp, f, p.lpndx);
  }

  /** `do`. */
  lemma KeepDo(cmds: seq<Words>, p: Parser, q: Parser)
    requires Short(cmds, p) && At(cmds, p.pos, [Do]) && p.AwaitsDo()
    requires q == p.WithLoopTop(p.LoopTop().(state := LoopDo)).(pos := p.pos + 1, fail := q.fail) && q.Inv()
    ensures Short(cmds, q)
  {
    hide Slots; hide Frames;
    FramesNext(cmds, p.pos);
    SlotsTop(cmds, p.lp, Frames(cmds, p.pos), p.lpndx, p.LoopTop().(state := LoopDo));
  }

  /** `done`: on to the next command or back to the loop line. */
  lemma KeepDone(cmds: seq<Words>, p: Parser, q: Parser, slot: LoopSlot, pos: nat)
    requires Short(cmds, p) && Proper(cmds, p.pos) && At(cmds, p.pos, [Done]) && p.lpndx > 0
    requires q == p.WithLoopTop(slot).(lpndx := p.lpndx - 1, pos := pos, fail := q.fail) && q.Inv()
    requires pos == p.pos + 1 || pos == p.LoopTop().topoffs
    ensures Short(cmds, q)
  {
    hide Frames;
    FramesNext(cmds, p.pos);
    var f, n := Frames(cmds, p.pos), p.lpndx;
    BelowLoop(cmds, p.pos, |f| - 1);
    SlotsSame(cmds, p.lp, q.lp, f[..|f| - 1], n - 1);
  }

  /** A `break` that runs in a loop. */
  lemma KeepBreak(cmds: seq<Words>, p: Parser, q: Parser)
    requires Short(cmds, p) && At(cmds, p.pos, [BreakName]) && InLoop(p) && p.LoopTop().enable
    requires q == Break(p).(pos := p.pos + 1, fail := q.fail) && q.Inv()
    ensures Short(cmds, q)
  {
    hide Slots; hide Frames;
    FramesNext(cmds, p.pos);
    TopBelow(cmds, p.lp, p.pos, p.lpndx);
    SlotsTop(cmds, p.lp, Frames(cmds, p.pos), p.lpndx, p.LoopTop().(enable := false));
  }

  // ----- Every command keeps the stack short or is an error -----

  /** The outcome of command `p.pos`. */
  function Outcome(cmds: seq<Words>, p: Parser, failed: bool): (r: Performed)
    requires p.InRange() && p.pos < |cmds|
  {
    Perform(p.(pos := p.pos + 1), p.pos, cmds[p.pos], failed)
  }

  lemma OutcomeInv(cmds: seq<Words>, p: Parser, failed: bool)
    requires p.Inv() && p.pos < |cmds|
    ensures Outcome(cmds, p, failed).p.Inv()
  {
    hide *;
    InvMoves(p);
    OutcomeIs(cmds, p, failed);
    PerformKeepsInv(p.(pos := p.pos + 1), p.pos, cmds[p.pos], failed);
  }

  lemma InvMoves(p: Parser)
    requires p.Inv()
    ensures p.InRange() && p.(pos := p.pos + 1).Inv()
  {
  }

  lemma OutcomeIs(cmds: seq<Words>, p: Parser, failed: bool)
    requires p.InRange() && p.pos < |cmds|
    ensures p.(pos := p.pos + 1).InRange()
    ensures Outcome(cmds, p, failed) == Perform(p.(pos := p.pos + 1), p.pos, cmds[p.pos], failed)
  {
    hide Perform; hide Asks; hide ParseCommand;
  }

  lemma RejectedLoop(p: Parser, foffs: nat, ws: Words)
    requires p.InRange() && !p.AwaitsThen() && HandleLoop(p, foffs, ws).Rejected?
    ensures ParseCommand(p, foffs, ws).Finished? && ParseCommand(p, foffs, ws).ret
  {
  }

  lemma RejectedItef(p: Parser, foffs: nat, ws: Words)
    requires p.InRange() && !p.AwaitsDo() && HandleLoop(p, foffs, ws) == Accepted(p, ws) && HandleItef(p, ws).Rejected?
    ensures ParseCommand(p, foffs, ws).Finished? && ParseCommand(p, foffs, ws).ret
  {
  }

  lemma PlainOutcome(cmds: seq<Words>, p: Parser, failed: bool)
    requires Short(cmds, p) && p.pos < |cmds| && (cmds[p.pos] == [] || PlainCommand(cmds[p.pos]))
    ensures Outcome(cmds, p, failed).ret || Short(cmds, Outcome(cmds, p, failed).p)
  {
    hide ParseCommand; hide Short;
    ShortSettles(cmds, p);
    ParsePlain(p.(pos := p.pos + 1), p.pos, cmds[p.pos]);
    KeepOn(cmds, p, Outcome(cmds, p, failed).p);
  }

  /** Nothing is awaited but where its keyword stands. */
  lemma ShortSettles(cmds: seq<Words>, p: Parser)
    requires Short(cmds, p)
    ensures p.Inv() && (p.AwaitsDo() ==> At(cmds, p.pos, [Do])) && (p.AwaitsThen() ==> At(cmds, p.pos, [Then]))
    ensures InLoop(p) && !At(cmds, p.pos, [Then]) ==> p.ie[p.LoopTop().iendx].state != ItefIf
  {
    hide Slots;
  }

  lemma BreakOutcome(cmds: seq<Words>, p: Parser, failed: bool)
    requires Short(cmds, p) && At(cmds, p.pos, [BreakName])
    ensures Outcome(cmds, p, failed).ret || Short(cmds, Outcome(cmds, p, failed).p)
  {
    hide ParseCommand; hide Short;
    ShortSettles(cmds, p);
    OutcomeInv(cmds, p, failed);
    ParsePlain(p.(pos := p.pos + 1), p.pos, [BreakName]);
    var q := Outcome(cmds, p, failed).p;
    if p.CmdEnabled() && InLoop(p) {
      KeepBreak(cmds, p, q);
    } else {
      KeepOn(cmds, p, q);
    }
  }

  lemma IfPerforms(p: Parser, foffs: nat, inverted: bool, test: Words, failed: bool)
    requires p.InRange() && !p.AwaitsDo() && !p.AwaitsThen() && p.iendx + 1 < |p.ie| && PlainCommand(test)
    ensures
      var q := Perform(p, foffs, IfLine(inverted, test), failed).p;
      q.InRange() && q == PushBranch(p, q.ItefTop()).(fail := q.fail)
  {
    hide ParseCommand; hide SaveResult; hide IfLine;
    ParseIf(p, foffs, inverted, test);
    SaveBranchTest(p, ItefSlot(ItefIf, false, !p.CmdEnabled(), inverted), failed);
  }

  lemma IfOutcome(cmds: seq<Words>, p: Parser, failed: bool)
    requires Short(cmds, p) && Proper(cmds, p.pos) && IsIfLine(cmds[p.pos])
    ensures Outcome(cmds, p, failed).ret || Short(cmds, Outcome(cmds, p, failed).p)
  {
    hide Perform; hide Asks; hide ParseCommand; hide Short; hide Frames;
    ShortSettles(cmds, p);
    OutcomeInv(cmds, p, failed);
    var p1, ws, q := p.(pos := p.pos + 1), cmds[p.pos], Outcome(cmds, p, failed).p;
    var inverted := ws[1] == Bang;
    var test := if inverted then ws[2..] else ws[1..];
    assert ws == IfLine(inverted, test);
    if p.iendx + 1 < |p.ie| {
      IfPerforms(p1, p.pos, inverted, test, failed);
      KeepPush(cmds, p, q, q.ItefTop());
    } else {
      FullItef(p1, p.pos, inverted, test);
      ErrorPerforms(p1, p.pos, ws, failed);
    }
  }

  lemma ErrorPerforms(p: Parser, foffs: nat, ws: Words, failed: bool)
    requires p.InRange() && ParseCommand(p, foffs, ws).Finished? && ParseCommand(p, foffs, ws).ret
    ensures Perform(p, foffs, ws, failed).ret
  {
    hide ParseCommand;
  }

  lemma FullItef(p: Parser, foffs: nat, inverted: bool, test: Words)
    requires p.InRange() && !p.AwaitsDo() && !p.AwaitsThen() && p.iendx + 1 == |p.ie| && PlainCommand(test)
    ensures
      var r := ParseCommand(p, foffs, IfLine(inverted, test));
      r.Finished? && r.ret
  {
    var ws := IfLine(inverted, test);
    assert if inverted then ws[2..] == test && ws[1..][1..] == test else ws[1..] == test;
    RejectedItef(p, foffs, ws);
  }

  lemma LoopPerforms(p: Parser, foffs: nat, until: bool, test: Words, failed: bool)
    requires p.InRange() && !p.AwaitsDo() && !p.AwaitsThen() && p.lpndx + 1 < |p.lp| && PlainCommand(test)
    ensures
      var q := Perform(p, foffs, LoopLine(until, test), failed).p;
      && q.InRange() && q == PushedLoop(p, q.LoopTop()).(fail := q.fail)
      && q.LoopTop().topoffs == foffs && q.LoopTop().iendx == p.iendx
  {
    hide ParseCommand; hide SaveResult; hide LoopLine;
    ParseLoop(p, foffs, until, test);
    SaveLoopTest(p, LoopSlot(if until then LoopUntil else LoopWhile, p.CmdEnabled(), p.iendx, foffs), failed);
  }

  lemma LoopOutcome(cmds: seq<Words>, p: Parser, failed: bool)
    requires Short(cmds, p) && Proper(cmds, p.pos) && IsLoopLine(cmds[p.pos])
    ensures Outcome(cmds, p, failed).ret || Short(cmds, Outcome(cmds, p, failed).p)
  {
    hide Perform; hide Asks; hide ParseCommand; hide Short; hide Frames;
    ShortSettles(cmds, p);
    OutcomeInv(cmds, p, failed);
    var p1, ws, q := p.(pos := p.pos + 1), cmds[p.pos], Outcome(cmds, p, failed).p;
    var until, test := ws[0] == Until, ws[1..];
    assert ws == LoopLine(until, test);
    if p.lpndx + 1 < |p.lp| {
      LoopPerforms(p1, p.pos, until, test, failed);
      KeepLoop(cmds, p, q, q.LoopTop());
    } else {
      FullLoop(p1, p.pos, until, test);
      ErrorPerforms(p1, p.pos, ws, failed);
    }
  }

  lemma FullLoop(p: Parser, foffs: nat, until: bool, test: Words)
    requires p.InRange() && !p.AwaitsDo() && !p.AwaitsThen() && p.lpndx + 1 == |p.lp| && PlainCommand(test)
    ensures
      var r := ParseCommand(p, foffs, LoopLine(until, test));
      r.Finished? && r.ret
  {
    assert LoopLine(until, test)[1..] == test;
    RejectedLoop(p, foffs, LoopLine(until, test));
  }

  lemma ThenOutcome(cmds: seq<Words>, p: Parser, failed: bool)
    requires Short(cmds, p) && At(cmds, p.pos, [Then])
    ensures Outcome(cmds, p, failed).ret || Short(cmds, Outcome(cmds, p, failed).p)
  {
    hide ParseCommand; hide Short;
    ShortSettles(cmds, p);
    OutcomeInv(cmds, p, failed);
    var p1, q := p.(pos := p.pos + 1), Outcome(cmds, p, failed).p;
    if p.AwaitsThen() {
      ParseThen(p1, p.pos);
      KeepState(cmds, p, q, p.ItefTop().(state := ItefThen));
    } else {
      RejectedItef(p1, p.pos, [Then]);
    }
  }

  lemma ElseOutcome(cmds: seq<Words>, p: Parser, failed: bool)
    requires Short(cmds, p) && At(cmds, p.pos, [Else])
    ensures Outcome(cmds, p, failed).ret || Short(cmds, Outcome(cmds, p, failed).p)
  {
    hide ParseCommand; hide Short;
    ShortSettles(cmds, p);
    OutcomeInv(cmds, p, failed);
    var p1, q := p.(pos := p.pos + 1), Outcome(cmds, p, failed).p;
    if p.ItefTop().state == ItefThen {
      ParseElse(p1, p.pos);
      KeepState(cmds, p, q, p.ItefTop().(state := ItefElse));
    } else {
      RejectedItef(p1, p.pos, [Else]);
    }
  }

  lemma FiOutcome(cmds: seq<Words>, p: Parser, failed: bool)
    requires Short(cmds, p) && Proper(cmds, p.pos) && At(cmds, p.pos, [Fi])
    ensures Outcome(cmds, p, failed).ret || Short(cmds, Outcome(cmds, p, failed).p)
  {
    hide ParseCommand; hide Short;
    ShortSettles(cmds, p);
    var p1, q := p.(pos := p.pos + 1), Outcome(cmds, p, failed).p;
    if p.ItefTop().state != ItefNormal {
      ParseFi(p1, p.pos);
      KeepPop(cmds, p, q);
    } else {
      RejectedItef(p1, p.pos, [Fi]);
    }
  }

  lemma DoOutcome(cmds: seq<Words>, p: Parser, failed: bool)
    requires Short(cmds, p) && At(cmds, p.pos, [Do])
    ensures Outcome(cmds, p, failed).ret || Short(cmds, Outcome(cmds, p, failed).p)
  {
    hide ParseCommand; hide Short;
    ShortSettles(cmds, p);
    OutcomeInv(cmds, p, failed);
    var p1, q := p.(pos := p.pos + 1), Outcome(cmds, p, failed).p;
    if p.AwaitsDo() {
      ParseDo(p1, p.pos);
      KeepDo(cmds, p, q);
    } else {
      RejectedLoop(p1, p.pos, [Do]);
    }
  }

  lemma DoneOutcome(cmds: seq<Words>, p: Parser, failed: bool)
    requires Short(cmds, p) && Proper(cmds, p.pos) && At(cmds, p.pos, [Done])
    ensures Outcome(cmds, p, failed).ret || Short(cmds, Outcome(cmds, p, failed).p)
  {
    hide ParseCommand; hide Short;
    ShortSettles(cmds, p);
    OutcomeInv(cmds, p, failed);
    var p1, q := p.(pos := p.pos + 1), Outcome(cmds, p, failed).p;
    if InLoop(p) {
      ParseDone(p1, p.pos);
      KeepDone(cmds, p, q, q.lp[p.lpndx], q.pos);
    } else {
      RejectedLoop(p1, p.pos, [Done]);
    }
  }

  lemma ShortOutcome(cmds: seq<Words>, p: Parser, failed: bool)
    requires Short(cmds, p) && Proper(cmds, p.pos)
    ensures p.InRange()
    ensures Outcome(cmds, p, failed).ret || Short(cmds, Outcome(cmds, p, failed).p)
  {
    hide Short; hide Outcome;
    ShortSettles(cmds, p);
    var ws := cmds[p.pos];
    if ws == [] || PlainCommand(ws) {
      PlainOutcome(cmds, p, failed);
    } else if ws == [BreakName] {
      BreakOutcome(cmds, p, failed);
    } else if IsLoopLine(ws) {
      LoopOutcome(cmds, p, failed);
    } else if IsIfLine(ws) {
      IfOutcome(cmds, p, failed);
    } else if ws == [Then] {
      ThenOutcome(cmds, p, failed);
    } else if ws == [Else] {
      ElseOutcome(cmds, p, failed);
    } else if ws == [Fi] {
      FiOutcome(cmds, p, failed);
    } else if ws == [Do] {
      DoOutcome(cmds, p, failed);
    } else {
      DoneOutcome(cmds, p, failed);
    }
  }

  /** The run has stopped with an error, or goes on with a short if-stack. */
  ghost predicate Lost(s: Script, c: Config) {
    if c.halted then c.ret else Short(s.cmds, c.p)
  }

  lemma StepOutcome(s: Script, c: Config) returns (failed: bool)
    requires c.p.InRange() && !c.halted && c.p.pos < |s.cmds| && !s.ignore
    ensures
      var r, d := Outcome(s.cmds, c.p, failed), Step(s, c);
      d == c || (d.p == r.p && d.ret == r.ret && d.halted == r.ret)
  {
    hide Perform; hide Asks; hide ParseCommand;
    failed := c.results != [] && c.results[0];
  }

  lemma ShortStep(s: Script, c: Config, b: Block)
    requires s.cmds == Lines(b) && WellFormed(b) && !s.ignore && c.p.InRange() && Lost(s, c)
    ensures Lost(s, Step(s, c))
  {
    if c.halted {
      hide Short; hide Perform;
    } else {
      hide *;
      LostIsShort(s, c);
      Inside(s, c, b);
      var failed := StepOutcome(s, c);
      ShortOutcome(s.cmds, c.p, failed);
      StillLost(s, c, Step(s, c), Outcome(s.cmds, c.p, failed));
    }
  }

  lemma LostIsShort(s: Script, c: Config)
    requires Lost(s, c) && !c.halted
    ensures Short(s.cmds, c.p)
  {
  }

  lemma StillLost(s: Script, c: Config, d: Config, r: Performed)
    requires Lost(s, c) && (r.ret || Short(s.cmds, r.p))
    requires d == c || (d.p == r.p && d.ret == r.ret && d.halted == r.ret)
    ensures Lost(s, d)
  {
    hide Short;
  }

  /** With a short if-stack the end of the script has not been reached. */
  lemma Inside(s: Script, c: Config, b: Block)
    requires s.cmds == Lines(b) && WellFormed(b) && Short(s.cmds, c.p)
    ensures c.p.pos < |s.cmds| && Proper(s.cmds, c.p.pos)
  {
    hide *;
    HoldsAll(s, b);
    FramesBehind(s, 0, b);
    NotAtEnd(s.cmds, c.p);
    BlockProper(s, 0, b, c.p.pos);
  }

  lemma HoldsAll(s: Script, b: Block)
    requires s.cmds == Lines(b)
    ensures Holds(s, 0, Lines(b))
  {
    hide Lines;
    assert s.cmds[0..|s.cmds|] == s.cmds;
  }

  lemma NotAtEnd(cmds: seq<Words>, p: Parser)
    requires Short(cmds, p) && Frames(cmds, 0 + |cmds|) == Frames(cmds, 0)
    ensures p.pos < |cmds|
  {
    hide *;
    ShortDepth(cmds, p);
    NothingAround(cmds);
  }

  lemma ShortDepth(cmds: seq<Words>, p: Parser)
    requires Short(cmds, p)
    ensures 0 <= p.iendx && p.pos <= |cmds| && p.iendx < Depth(Frames(cmds, p.pos))
  {
    hide Slots; hide Settled; hide Frames; hide Depth;
  }

  lemma NothingAround(cmds: seq<Words>)
    ensures Depth(Frames(cmds, 0)) == 0
  {
  }

  /** Once the if-stack is short, the run never completes. */
  lemma {:induction false} NeverCompletes(s: Script, c: Config, b: Block, n: nat)
    requires s.cmds == Lines(b) && WellFormed(b) && !s.ignore && c.p.InRange() && Lost(s, c)
    ensures Lost(s, Steps(s, c, n))
    decreases n
  {
    hide Step; hide Lost;
    if n > 0 {
      ShortStep(s, c, b);
      NeverCompletes(s, Step(s, c), b, n - 1);
    }
  }
}
