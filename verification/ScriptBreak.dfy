/**
  A `break` below an `if` of its own loop leaves the if-stack short, so the script never
  completes, although the tree says that it goes on behind the loop.
*/
module ScriptBreak {
  import opened ScriptMachine
  import opened ScriptTree
  import opened ScriptRefinement
  import opened ScriptInvariant
  import opened ScriptTelling
  import opened ScriptFrames
  import opened ScriptShort
  import opened ScriptExact

  /** The telling `break` belongs to the loop around the block. */
  predicate Own(b: Block, inLoop: bool)
    requires !Regular(b, inLoop) && BreakFirst(b, inLoop)
    decreases b, 0
  {
    if !RegularStmt(b.head, inLoop) then OwnOf(b.head, inLoop) else Own(b.tail, inLoop)
  }

  predicate OwnOf(st: Stmt, inLoop: bool)
    requires !RegularStmt(st, inLoop) && BreakFirstOf(st, inLoop)
    decreases st, 1
  {
    match st
    case Branch(_, _, thn, _, els) =>
      if !Regular(thn, inLoop) then Own(thn, inLoop)
      else if inLoop && !NoDirectBreak(thn) then true
      else if !Regular(els, inLoop) then Own(els, inLoop)
      else true
    case Loop(_, _, _) => false
  }

  /** Every loop in the block that can be reached is regular. */
  predicate LoopsRegular(b: Block, inLoop: bool) {
    match b
    case Nil => true
    case Cons(st, rest) =>
      (st.BreakLoop? && inLoop) || (LoopsRegularStmt(st, inLoop) && LoopsRegular(rest, inLoop))
  }

  predicate LoopsRegularStmt(st: Stmt, inLoop: bool) {
    match st
    case Branch(_, _, thn, _, els) => LoopsRegular(thn, inLoop) && LoopsRegular(els, inLoop)
    case Loop(_, _, _) => RegularStmt(st, inLoop)
    case _ => true
  }

  /**
    No loop with a `break` of its own is around a loop that is not regular: such a `break` can
    put the if-stack right again.
  */
  predicate Unrescued(b: Block, inLoop: bool) {
    match b
    case Nil => true
    case Cons(st, rest) => (st.BreakLoop? && inLoop) || (UnrescuedStmt(st, inLoop) && Unrescued(rest, inLoop))
  }

  predicate UnrescuedStmt(st: Stmt, inLoop: bool) {
    match st
    case Branch(_, _, thn, _, els) => Unrescued(thn, inLoop) && Unrescued(els, inLoop)
    case Loop(_, _, body) => (NoDirectBreak(body) || LoopsRegular(body, true)) && Unrescued(body, true)
    case _ => true
  }

  lemma {:induction false} OwnUnlessLoop(b: Block)
    requires !Regular(b, true) && BreakFirst(b, true) && LoopsRegular(b, true)
    ensures Own(b, true)
    decreases b, 0
  {
    if RegularStmt(b.head, true) {
      OwnUnlessLoop(b.tail);
    } else {
      OwnUnlessLoopOf(b.head);
    }
  }

  lemma {:induction false} OwnUnlessLoopOf(st: Stmt)
    requires !RegularStmt(st, true) && BreakFirstOf(st, true) && LoopsRegularStmt(st, true)
    ensures OwnOf(st, true)
    decreases st, 1
  {
    if !Regular(st.thn, true) {
      OwnUnlessLoop(st.thn);
    } else if NoDirectBreak(st.thn) && !Regular(st.els, true) {
      OwnUnlessLoop(st.els);
    }
  }

  // ----- A loop without a `break` of its own, in the text -----

  lemma {:induction false} Gone(cmds: seq<Words>, k: nat, q: nat, t: nat)
    requires t < k <= q <= |cmds| && InBody(t) !in Frames(cmds, k)
    ensures InBody(t) !in Frames(cmds, q)
  {
    if k < q {
      Gone(cmds, k, q - 1, t);
    }
  }

  lemma NotYet(cmds: seq<Words>, t: nat)
    requires t <= |cmds|
    ensures InBody(t) !in Frames(cmds, t)
  {
    var f := Frames(cmds, t);
    if InBody(t) in f {
      var i :| 0 <= i < |f| && f[i] == InBody(t);
      BelowLoop(cmds, t, i);
    }
  }

  /** A `break` in the frames of a block itself is a statement of the block. */
  lemma {:induction false} DirectOnly(s: Script, at: nat, b: Block, q: nat)
    requires Holds(s, at, Lines(b)) && WellFormed(b) && at <= q < at + |Lines(b)|
    requires s.cmds[q] == [BreakName] && Frames(s.cmds, q) == Frames(s.cmds, at)
    ensures !NoDirectBreak(b)
    decreases b
  {
    hide Frames;
    var st, mid := b.head, at + |LinesOf(b.head)|;
    HoldsSplit(s, at, LinesOf(st), Lines(b.tail));
    FramesBehindStmt(s, at, st);
    if q >= mid {
      DirectOnly(s, mid, b.tail, q);
    } else {
      DeeperInside(s, at, st, q);
    }
  }

  lemma DeeperInside(s: Script, at: nat, st: Stmt, q: nat)
    requires Holds(s, at, LinesOf(st)) && WellFormedStmt(st) && at <= q < at + |LinesOf(st)|
    requires s.cmds[q] == [BreakName] && Frames(s.cmds, q) == Frames(s.cmds, at)
    ensures st.BreakLoop?
  {
    hide Frames; hide Holds;
    if st.Branch? {
      BranchDeeper(s, at, st, q);
    } else if st.Loop? {
      LoopDeeper(s, at, st, q);
    } else {
      HoldsOne(s, at, LinesOf(st)[0]);
    }
  }

  lemma BranchDeeper(s: Script, at: nat, st: Stmt, q: nat)
    requires st.Branch? && Holds(s, at, LinesOf(st)) && WellFormedStmt(st) && at <= q < at + |LinesOf(st)|
    ensures s.cmds[q] != [BreakName] || Frames(s.cmds, q) != Frames(s.cmds, at)
  {
    hide Frames; hide Holds; hide LinesOf; hide IfLine; hide Proper;
    HoldsBranch(s, at, st);
    BranchFrames(s, at, st);
    IfLineShaped(st.inverted, st.test);
    var mid := at + 2 + |Lines(st.thn)|;
    if at + 2 <= q < mid {
      BlockProper(s, at + 2, st.thn, q);
    } else if st.hasElse && mid < q < mid + 1 + |Lines(st.els)| {
      BlockProper(s, mid + 1, st.els, q);
    }
  }

  lemma LoopDeeper(s: Script, at: nat, st: Stmt, q: nat)
    requires st.Loop? && Holds(s, at, LinesOf(st)) && WellFormedStmt(st) && at <= q < at + |LinesOf(st)|
    ensures s.cmds[q] != [BreakName] || Frames(s.cmds, q) != Frames(s.cmds, at)
  {
    hide Frames; hide Holds; hide LinesOf; hide LoopLine; hide Proper;
    HoldsLoop(s, at, st);
    LoopFrames(s, at, st);
    LoopLineShaped(st.until, st.test);
    if at + 2 <= q < at + 2 + |Lines(st.body)| {
      BlockProper(s, at + 2, st.body, q);
    }
  }

  lemma NoBreakOfItsOwn(s: Script, at: nat, st: Stmt)
    requires st.Loop? && Holds(s, at, LinesOf(st)) && WellFormedStmt(st) && NoDirectBreak(st.body)
    ensures !HasBreak(s.cmds, at)
  {
    if HasBreak(s.cmds, at) {
      var q: nat :| ScriptShort.At(s.cmds, q, [BreakName]) && StandsIn(s.cmds, q, at);
      BreakOutside(s, at, st, q);
    }
  }

  lemma BreakOutside(s: Script, at: nat, st: Stmt, q: nat)
    requires st.Loop? && Holds(s, at, LinesOf(st)) && WellFormedStmt(st) && NoDirectBreak(st.body)
    requires ScriptShort.At(s.cmds, q, [BreakName])
    ensures !StandsIn(s.cmds, q, at)
  {
    hide Frames; hide Holds; hide LinesOf; hide LoopLine;
    HoldsLoop(s, at, st);
    LoopFrames(s, at, st);
    LoopLineShaped(st.until, st.test);
    if StandsIn(s.cmds, q, at) {
      var f, end := Frames(s.cmds, q), at + |LinesOf(st)|;
      BelowLoop(s.cmds, q, |f| - 1);
      assert f == Frames(s.cmds, at) + [InBody(at)];
      if q >= end {
        NotYet(s.cmds, at);
        Gone(s.cmds, end, q, at);
      } else if at + 2 <= q < end - 1 {
        DirectOnly(s, at + 2, st.body, q);
      }
    }
  }

  // ----- The way to the `break` -----

  /** The stacks hold just what the text says; only the innermost loop may have a `break` of its own. */
  ghost predicate Exact(cmds: seq<Words>, lp: seq<LoopSlot>, f: seq<Frame>, n: nat, innermost: bool) {
    if f == [] then n == 0
    else
      var g := f[..|f| - 1];
      match f[|f| - 1]
      case InBranch => Exact(cmds, lp, g, n, innermost)
      case InBody(t) =>
        && 0 < n < |lp| && lp[n].topoffs == t && lp[n].iendx == Depth(g)
        && (innermost || !HasBreak(cmds, t))
        && Exact(cmds, lp, g, n - 1, false)
  }

  ghost predicate Tracks(cmds: seq<Words>, p: Parser) {
    && p.Inv() && p.pos <= |cmds| && !p.AwaitsDo()
    && p.iendx == Depth(Frames(cmds, p.pos))
    && Exact(cmds, p.lp, Frames(cmds, p.pos), p.lpndx, true)
    && (forall i :: 0 <= i <= p.iendx ==> p.ie[i].state != ItefIf)
  }

  lemma {:induction false} ExactSame(cmds: seq<Words>, lp: seq<LoopSlot>, lp': seq<LoopSlot>, f: seq<Frame>,
    n: nat, innermost: bool)
    requires Exact(cmds, lp, f, n, innermost) && |lp'| == |lp| && forall i :: 0 < i <= n && i < |lp| ==> lp[i] == lp'[i]
    ensures Exact(cmds, lp', f, n, innermost)
    decreases |f|
  {
    if f != [] {
      var body := f[|f| - 1].InBody?;
      ExactSame(cmds, lp, lp', f[..|f| - 1], if body then n - 1 else n, !body && innermost);
    }
  }

  lemma {:induction false} ExactIsSlots(cmds: seq<Words>, lp: seq<LoopSlot>, f: seq<Frame>, n: nat, innermost: bool)
    requires Exact(cmds, lp, f, n, innermost) && (innermost && n > 0 ==> n < |lp| && Off(lp[n]))
    ensures Slots(cmds, lp, f, n)
    decreases |f|
  {
    if f != [] {
      var body := f[|f| - 1].InBody?;
      ExactIsSlots(cmds, lp, f[..|f| - 1], if body then n - 1 else n, !body && innermost);
    }
  }

  lemma {:induction false} ExactTop(cmds: seq<Words>, lp: seq<LoopSlot>, f: seq<Frame>, n: nat, slot: LoopSlot)
    requires Exact(cmds, lp, f, n, true) && 0 < n < |lp| && slot.topoffs == lp[n].topoffs && slot.iendx == lp[n].iendx
    ensures Exact(cmds, lp[n := slot], f, n, true) && lp[n].iendx <= Depth(f)
    decreases |f|
  {
    var g := f[..|f| - 1];
    if f[|f| - 1].InBody? {
      ExactSame(cmds, lp, lp[n := slot], g, n - 1, false);
    } else {
      ExactTop(cmds, lp, g, n, slot);
    }
  }

  /** The loops on the stack reach no higher than the if-stack. */
  lemma {:induction false} ExactBelow(cmds: seq<Words>, lp: seq<LoopSlot>, f: seq<Frame>, n: nat, innermost: bool,
    i: nat)
    requires Exact(cmds, lp, f, n, innermost) && 0 < i <= n && n < |lp|
    ensures lp[i].iendx <= Depth(f)
    decreases |f|
  {
    var body := f[|f| - 1].InBody?;
    if !(body && i == n) {
      ExactBelow(cmds, lp, f[..|f| - 1], if body then n - 1 else n, !body && innermost, i);
    }
  }

  /** The `break` itself. */
  lemma BreakMakesShort(cmds: seq<Words>, p: Parser, q: Parser, f: seq<Frame>)
    requires Tracks(cmds, p) && ScriptShort.At(cmds, p.pos, [BreakName]) && InLoop(p)
    requires Frames(cmds, p.pos) == f + [InBranch]
    requires q == Break(p).(pos := p.pos + 1, fail := q.fail) && q.Inv()
    ensures Short(cmds, q)
  {
    hide Slots; hide Frames;
    var g, n := f + [InBranch], p.lpndx;
    FramesNext(cmds, p.pos);
    ExactTop(cmds, p.lp, g, n, p.LoopTop().(enable := false));
    ExactIsSlots(cmds, q.lp, g, n, true);
    DepthPush(f, InBranch);
    assert g[..|f|] == f;
    ExactBelow(cmds, p.lp, f, n, true, n);
    forall m, i | 0 < m <= q.lpndx && 0 <= i <= q.lp[m].iendx && i < |q.ie| ensures q.ie[i].state != ItefIf {
      ExactBelow(cmds, p.lp, g, n, true, m);
    }
  }

  lemma TracksSame(cmds: seq<Words>, p: Parser, q: Parser)
    requires Tracks(cmds, p) && SameStacks(p, q) && q.Inv() && q.pos <= |cmds|
      && Frames(cmds, q.pos) == Frames(cmds, p.pos)
    ensures Tracks(cmds, q)
  {
    hide Frames; hide Exact;
    ExactSame(cmds, p.lp, q.lp, Frames(cmds, p.pos), p.lpndx, true);
  }

  lemma TracksBranch(cmds: seq<Words>, p: Parser, q: Parser, slot: ItefSlot)
    requires Tracks(cmds, p) && p.iendx + 1 < |p.ie| && SameStacks(PushBranch(p, slot), q) && slot.state != ItefIf
      && q.Inv()
    requires q.pos <= |cmds| && Frames(cmds, q.pos) == Frames(cmds, p.pos) + [InBranch]
    ensures Tracks(cmds, q)
  {
    hide Frames; hide Exact;
    var f := Frames(cmds, p.pos);
    DepthPush(f, InBranch);
    ExactSame(cmds, p.lp, q.lp, f, p.lpndx, true);
    ExactBranch(cmds, q.lp, f, q.lpndx);
  }

  lemma ExactBranch(cmds: seq<Words>, lp: seq<LoopSlot>, f: seq<Frame>, n: nat)
    requires Exact(cmds, lp, f, n, true)
    ensures Exact(cmds, lp, f + [InBranch], n, true)
  {
    assert (f + [InBranch])[..|f|] == f;
  }

  lemma TracksLoop(cmds: seq<Words>, p: Parser, q: Parser, slot: LoopSlot)
    requires Tracks(cmds, p) && p.lpndx + 1 < |p.lp| && q == PushedLoop(p, slot).(pos := q.pos, fail := q.fail)
      && q.Inv()
    requires slot.state == LoopDo && slot.topoffs == p.pos && slot.iendx == p.iendx
    requires InLoop(p) ==> !HasBreak(cmds, p.LoopTop().topoffs)
    requires q.pos <= |cmds| && Frames(cmds, q.pos) == Frames(cmds, p.pos) + [InBody(p.pos)]
    ensures Tracks(cmds, q)
  {
    hide Frames; hide Exact;
    var f := Frames(cmds, p.pos);
    DepthPush(f, InBody(p.pos));
    ExactNested(cmds, p.lp, f, p.lpndx);
    ExactSame(cmds, p.lp, q.lp, f, p.lpndx, false);
    ExactLoop(cmds, q.lp, f, q.lpndx, p.pos);
  }

  lemma {:induction false} ExactNested(cmds: seq<Words>, lp: seq<LoopSlot>, f: seq<Frame>, n: nat)
    requires Exact(cmds, lp, f, n, true) && (n > 0 ==> n < |lp| && !HasBreak(cmds, lp[n].topoffs))
    ensures Exact(cmds, lp, f, n, false)
    decreases |f|
  {
    if f != [] && !f[|f| - 1].InBody? {
      ExactNested(cmds, lp, f[..|f| - 1], n);
    }
  }

  lemma ExactLoop(cmds: seq<Words>, lp: seq<LoopSlot>, f: seq<Frame>, n: nat, t: nat)
    requires 0 < n < |lp| && lp[n].topoffs == t && lp[n].iendx == Depth(f) && Exact(cmds, lp, f, n - 1, false)
    ensures Exact(cmds, lp, f + [InBody(t)], n, true)
  {
    assert (f + [InBody(t)])[..|f|] == f;
  }

  lemma ReachedInv(s: Script, c: Config, d: Config)
    requires c.p.Inv() && Reaches(s, c, d)
    ensures d.p.Inv()
  {
    hide Step;
    var n: nat :| Steps(s, c, n) == d;
    RunKeepsInv(s, c, n);
  }

  /** The machine stands before a block on the way to the telling `break`. */
  ghost predicate OnTheWay(s: Script, c: Config, b: Block) {
    && Ready(s, c) && Holds(s, c.p.pos, Lines(b)) && WellFormed(b) && Fits(c.p, b) && Tracks(s.cmds, c.p)
  }

  /** If the `break` belongs to a loop further in, the loop around has none of its own. */
  ghost predicate Guarded(s: Script, p: Parser, own: bool) {
    InLoop(p) && !own ==> !HasBreak(s.cmds, p.lp[p.lpndx].topoffs)
  }

  ghost predicate GetsShort(s: Script, c: Config, d: Config)
    requires c.p.InRange()
  {
    Reaches(s, c, d) && d.p.InRange() && !d.halted && Short(s.cmds, d.p)
  }

  lemma ShortBehind(s: Script, c: Config, e: Config, d: Config)
    requires c.p.InRange() && e.p.InRange() && Reaches(s, c, e) && GetsShort(s, e, d)
    ensures GetsShort(s, c, d)
  {
    hide Step; hide Reaches; hide Short;
    ReachesTrans(s, c, e, d);
  }

  /** Over a statement that completes. */
  lemma Onward(s: Script, c: Config, b: Block, more: seq<bool>) returns (e: Config)
    requires b.Cons? && OnTheWay(s, c, b) && RegularStmt(b.head, InLoop(c.p)) && !(b.head.BreakLoop? && InLoop(c.p))
    requires c.results == FinishingOf(b.head, InLoop(c.p)) + more
    ensures c.p.InRange() && e.p.InRange() && Reaches(s, c, e) && OnTheWay(s, e, b.tail) && e.results == more
    ensures InLoop(e.p) == InLoop(c.p) && Frames(s.cmds, e.p.pos) == Frames(s.cmds, c.p.pos)
    ensures forall own :: Guarded(s, c.p, own) ==> Guarded(s, e.p, own)
  {
    hide Step; hide Reaches; hide Holds; hide InterpretStmt; hide Ready; hide Matches; hide LinesOf; hide Fits;
    hide FitsStmt;
    hide SameStacks; hide Tracks; hide Frames; hide RegularStmt; hide FinishingOf; hide InLoop; hide Guarded;
    var st, rest := b.head, b.tail;
    var m, mid := StmtMeaning(s, c, st), c.p.pos + |LinesOf(st)|;
    FitsCons(c.p, st, rest);
    HoldsSplit(s, c.p.pos, LinesOf(st), Lines(rest));
    RegularStays(st, InLoop(c.p));
    FinishesStmt(st, c.p.pos, c.p.fail, c.ret, ModeAt(s, c.p), more);
    ReadyStands(s, c);
    e := RunStmt(s, c, st);
    StillReady(s, c, e, m, mid);
    FitsSame(c.p, e.p, rest, st);
    FramesBehindStmt(s, c.p.pos, st);
    TracksInv(s, c, e);
    TracksSame(s.cmds, c.p, e.p);
    GuardSame(s, c.p, e.p);
  }

  lemma TracksInv(s: Script, c: Config, e: Config)
    requires Tracks(s.cmds, c.p) && Reaches(s, c, e)
    ensures e.p.Inv()
  {
    hide Reaches; hide Exact; hide Frames;
    ReachedInv(s, c, e);
  }

  lemma GuardSame(s: Script, p: Parser, q: Parser)
    requires SameStacks(p, q)
    ensures InLoop(p) == InLoop(q) && forall own :: Guarded(s, p, own) ==> Guarded(s, q, own)
  {
    hide HasBreak;
  }

  lemma BreakStep(s: Script, c: Config, b: Block, f: seq<Frame>)
    requires b.Cons? && b.head.BreakLoop? && OnTheWay(s, c, b) && InLoop(c.p)
      && Frames(s.cmds, c.p.pos) == f + [InBranch]
    ensures c.p.InRange() && GetsShort(s, c, Step(s, c))
  {
    hide Step; hide Reaches; hide Holds; hide Frames; hide Exact; hide Short; hide Fits; hide Lines;
    BreakLines(b.tail);
    HoldsSplit(s, c.p.pos, [[BreakName]], Lines(b.tail));
    HoldsOne(s, c.p.pos, [BreakName]);
    ExactBelow(s.cmds, c.p.lp, Frames(s.cmds, c.p.pos), c.p.lpndx, true, c.p.lpndx);
    StepBreak(s, c);
    ReachesStep(s, c);
    ReachedInv(s, c, Step(s, c));
    BreakMakesShort(s.cmds, c.p, Step(s, c).p, f);
  }

  /** A part of an `if` with a `break` of the loop around. */
  lemma {:induction false} ToBreakRuns(s: Script, c: Config, b: Block, f: seq<Frame>, more: seq<bool>)
    returns (d: Config)
    requires OnTheWay(s, c, b) && InLoop(c.p) && Regular(b, true) && !NoDirectBreak(b)
    requires c.results == ToBreak(b) + more && Frames(s.cmds, c.p.pos) == f + [InBranch]
    ensures c.p.InRange() && GetsShort(s, c, d)
    decreases b
  {
    hide Step; hide OnTheWay; hide Frames; hide GetsShort; hide RegularStmt; hide FinishingOf; hide InLoop;
    hide Reaches;
    if b.head.BreakLoop? {
      BreakStep(s, c, b, f);
      d := Step(s, c);
    } else {
      assert c.results == FinishingOf(b.head, true) + (ToBreak(b.tail) + more);
      var e := Onward(s, c, b, ToBreak(b.tail) + more);
      d := ToBreakRuns(s, e, b.tail, f, more);
      ShortBehind(s, c, e, d);
    }
  }

  /** The machine gets to the `break` and leaves it with a short if-stack. */
  lemma {:induction false} ReachesBreak(s: Script, c: Config, b: Block, more: seq<bool>) returns (d: Config)
    requires OnTheWay(s, c, b) && !Regular(b, InLoop(c.p)) && BreakFirst(b, InLoop(c.p)) && Unrescued(b, InLoop(c.p))
    requires c.results == Telling(b, InLoop(c.p)) + more && Guarded(s, c.p, Own(b, InLoop(c.p)))
    ensures c.p.InRange() && GetsShort(s, c, d)
    decreases b, 0
  {
    hide Step; hide OnTheWay; hide Frames; hide GetsShort; hide RegularStmt; hide FinishingOf; hide InLoop;
    hide Reaches;
    hide Guarded; hide BreakFirstOf; hide UnrescuedStmt; hide OwnOf;
    var st, rest, l := b.head, b.tail, InLoop(c.p);
    if RegularStmt(st, l) {
      assert c.results == FinishingOf(st, l) + (Telling(rest, l) + more);
      var e := Onward(s, c, b, Telling(rest, l) + more);
      d := ReachesBreak(s, e, rest, more);
      ShortBehind(s, c, e, d);
    } else {
      OnTheWayStmt(s, c, b);
      if st.Branch? {
        d := BranchReachesBreak(s, c, st, more);
      } else {
        assert !OwnOf(st, l) by { LoopOwns(st, l); }
        d := LoopReachesBreak(s, c, st, more);
      }
    }
  }

  lemma LoopOwns(st: Stmt, inLoop: bool)
    requires st.Loop? && !RegularStmt(st, inLoop) && BreakFirstOf(st, inLoop)
    ensures !OwnOf(st, inLoop)
  {
  }

  ghost predicate StmtOnTheWay(s: Script, c: Config, st: Stmt) {
    Ready(s, c) && Holds(s, c.p.pos, LinesOf(st)) && WellFormedStmt(st) && FitsStmt(c.p, st) && Tracks(s.cmds, c.p)
  }

  lemma OnTheWayStmt(s: Script, c: Config, b: Block)
    requires b.Cons? && OnTheWay(s, c, b) && !RegularStmt(b.head, InLoop(c.p))
    ensures StmtOnTheWay(s, c, b.head) && (b.head.Branch? || b.head.Loop?)
  {
    hide Holds; hide LinesOf; hide Tracks; hide Regular;
    FitsCons(c.p, b.head, b.tail);
    HoldsSplit(s, c.p.pos, LinesOf(b.head), Lines(b.tail));
  }

  /** Into the `then` part. */
  lemma ThenOnTheWay(s: Script, c: Config, st: Stmt) returns (e: Config)
    requires StmtOnTheWay(s, c, st) && st.Branch? && c.results != [] && c.results[0] == st.inverted
    ensures c.p.InRange() && e.p.InRange() && Reaches(s, c, e) && OnTheWay(s, e, st.thn) && e.results == c.results[1..]
    ensures InLoop(e.p) == InLoop(c.p) && Frames(s.cmds, e.p.pos) == Frames(s.cmds, c.p.pos) + [InBranch]
    ensures forall own :: Guarded(s, c.p, own) ==> Guarded(s, e.p, own)
  {
    hide Step; hide Reaches; hide Holds; hide LinesOf; hide IfLine; hide Exact; hide Frames; hide HasBreak;
    HoldsBranch(s, c.p.pos, st);
    BranchFrames(s, c.p.pos, st);
    e := EnterBranch(s, c, st);
    ReachedInv(s, c, e);
    TracksBranch(s.cmds, c.p, e.p, e.p.ItefTop());
  }

  /** Into the `else` part. */
  lemma ElseOnTheWay(s: Script, c: Config, st: Stmt) returns (e: Config)
    requires StmtOnTheWay(s, c, st) && st.Branch? && st.hasElse && c.results != [] && c.results[0] != st.inverted
    ensures c.p.InRange() && e.p.InRange() && Reaches(s, c, e) && OnTheWay(s, e, st.els) && e.results == c.results[1..]
    ensures InLoop(e.p) == InLoop(c.p) && Frames(s.cmds, e.p.pos) == Frames(s.cmds, c.p.pos) + [InBranch]
    ensures forall own :: Guarded(s, c.p, own) ==> Guarded(s, e.p, own)
  {
    hide Step; hide Reaches; hide Holds; hide LinesOf; hide IfLine; hide Exact; hide Frames; hide HasBreak;
    HoldsBranch(s, c.p.pos, st);
    BranchFrames(s, c.p.pos, st);
    var t := EnterBranch(s, c, st);
    e := EnterElse(s, t, st, c.p.pos);
    ReachesTrans(s, c, t, e);
    ReachedInv(s, c, e);
    TracksBranch(s.cmds, c.p, e.p, t.p.ItefTop().(state := ItefElse));
  }

  lemma {:induction false} BranchReachesBreak(s: Script, c: Config, st: Stmt, more: seq<bool>) returns (d: Config)
    requires StmtOnTheWay(s, c, st) && st.Branch? && !RegularStmt(st, InLoop(c.p)) && BreakFirstOf(st, InLoop(c.p))
    requires UnrescuedStmt(st, InLoop(c.p))
    requires c.results == TellingOf(st, InLoop(c.p)) + more && Guarded(s, c.p, OwnOf(st, InLoop(c.p)))
    ensures c.p.InRange() && GetsShort(s, c, d)
    decreases st, 1
  {
    hide *;
    ElseNeeded(s, c, st);
    var l, thn, els := InLoop(c.p), st.thn, st.els;
    BranchTells(st, l);
    if !Regular(thn, l) {
      assert c.results[0] == st.inverted && c.results[1..] == Telling(thn, l) + more;
      var e := ThenOnTheWay(s, c, st);
      d := ReachesBreak(s, e, thn, more);
      ShortBehind(s, c, e, d);
    } else if (l ==> NoDirectBreak(thn)) && !Regular(els, l) {
      assert c.results[0] != st.inverted && c.results[1..] == Telling(els, l) + more;
      var e := ElseOnTheWay(s, c, st);
      d := ReachesBreak(s, e, els, more);
      ShortBehind(s, c, e, d);
    } else {
      d := PartHasBreak(s, c, st, TellingOf(st, l), more);
    }
  }

  /** What the telling of a branch is made of. */
  lemma BranchTells(st: Stmt, l: bool)
    requires st.Branch? && !RegularStmt(st, l) && BreakFirstOf(st, l) && UnrescuedStmt(st, l)
    ensures Unrescued(st.thn, l) && Unrescued(st.els, l)
    ensures !Regular(st.thn, l) ==>
      && BreakFirst(st.thn, l) && Own(st.thn, l) == OwnOf(st, l)
      && TellingOf(st, l) == [st.inverted] + Telling(st.thn, l)
    ensures Regular(st.thn, l) && (l ==> NoDirectBreak(st.thn)) && !Regular(st.els, l) ==>
      && st.els != Nil && BreakFirst(st.els, l) && Own(st.els, l) == OwnOf(st, l)
      && TellingOf(st, l) == [!st.inverted] + Telling(st.els, l)
    ensures Regular(st.thn, l) && !((l ==> NoDirectBreak(st.thn)) && !Regular(st.els, l)) ==>
      && l && (NoDirectBreak(st.thn) ==> Regular(st.els, l) && !NoDirectBreak(st.els) && st.els != Nil)
      && TellingOf(st, l) ==
        if NoDirectBreak(st.thn) then [!st.inverted] + ToBreak(st.els) else [st.inverted] + ToBreak(st.thn)
  {
  }

  /** A part of the branch itself has the `break`. */
  lemma PartHasBreak(s: Script, c: Config, st: Stmt, rs: seq<bool>, more: seq<bool>) returns (d: Config)
    requires StmtOnTheWay(s, c, st) && st.Branch? && InLoop(c.p) && Regular(st.thn, true)
    requires NoDirectBreak(st.thn) ==> Regular(st.els, true) && !NoDirectBreak(st.els)
    requires c.results == rs + more
    requires rs ==
      if NoDirectBreak(st.thn) then [!st.inverted] + ToBreak(st.els) else [st.inverted] + ToBreak(st.thn)
    ensures c.p.InRange() && GetsShort(s, c, d)
  {
    hide Step; hide OnTheWay; hide Frames; hide GetsShort; hide InLoop; hide Reaches; hide Guarded; hide StmtOnTheWay;
    hide Regular; hide ToBreak;
    ElseNeeded(s, c, st);
    var f := Frames(s.cmds, c.p.pos);
    if !NoDirectBreak(st.thn) {
      assert c.results[0] == st.inverted && c.results[1..] == ToBreak(st.thn) + more;
      var e := ThenOnTheWay(s, c, st);
      d := ToBreakRuns(s, e, st.thn, f, more);
      ShortBehind(s, c, e, d);
    } else {
      assert c.results[0] != st.inverted && c.results[1..] == ToBreak(st.els) + more;
      var e := ElseOnTheWay(s, c, st);
      d := ToBreakRuns(s, e, st.els, f, more);
      ShortBehind(s, c, e, d);
    }
  }

  lemma ElseNeeded(s: Script, c: Config, st: Stmt)
    requires StmtOnTheWay(s, c, st) && st.Branch?
    ensures st.els != Nil ==> st.hasElse
    ensures c.p.InRange() && c.p.pos <= |s.cmds|
  {
    hide Holds; hide Exact; hide Frames;
  }

  lemma {:induction false} LoopReachesBreak(s: Script, c: Config, st: Stmt, more: seq<bool>) returns (d: Config)
    requires StmtOnTheWay(s, c, st) && st.Loop? && !RegularStmt(st, InLoop(c.p)) && BreakFirstOf(st, InLoop(c.p))
    requires UnrescuedStmt(st, InLoop(c.p))
    requires c.results == TellingOf(st, InLoop(c.p)) + more && Guarded(s, c.p, false)
    ensures c.p.InRange() && GetsShort(s, c, d)
    decreases st, 1
  {
    hide Step; hide OnTheWay; hide GetsShort; hide InLoop; hide Reaches; hide Guarded; hide StmtOnTheWay;
    assert c.results[0] == st.until && c.results[1..] == Telling(st.body, true) + more;
    var e := BodyOnTheWay(s, c, st);
    BodyGuarded(s, c, e, st);
    d := ReachesBreak(s, e, st.body, more);
    ShortBehind(s, c, e, d);
  }

  /** Into the body of a loop. */
  lemma BodyOnTheWay(s: Script, c: Config, st: Stmt) returns (e: Config)
    requires StmtOnTheWay(s, c, st) && st.Loop? && c.results != [] && c.results[0] == st.until && Guarded(s, c.p, false)
    ensures c.p.InRange() && e.p.InRange() && Reaches(s, c, e) && OnTheWay(s, e, st.body) && e.results == c.results[1..]
    ensures InLoop(e.p) && e.p.LoopTop().topoffs == c.p.pos
  {
    hide Step; hide Reaches; hide Holds; hide LinesOf; hide LoopLine; hide Exact; hide Frames; hide HasBreak;
    HoldsLoop(s, c.p.pos, st);
    LoopFrames(s, c.p.pos, st);
    e := EnterLoop(s, c, st);
    ReachedInv(s, c, e);
    TracksLoop(s.cmds, c.p, e.p, e.p.LoopTop());
  }

  lemma BodyGuarded(s: Script, c: Config, e: Config, st: Stmt)
    requires StmtOnTheWay(s, c, st) && st.Loop? && UnrescuedStmt(st, InLoop(c.p))
    requires !Regular(st.body, true) && BreakFirst(st.body, true)
    requires e.p.InRange() && e.p.LoopTop().topoffs == c.p.pos
    ensures Guarded(s, e.p, Own(st.body, true))
  {
    hide Tracks; hide Holds; hide LinesOf; hide HasBreak; hide Own; hide LoopsRegular;
    if !Own(st.body, true) {
      if LoopsRegular(st.body, true) {
        OwnUnlessLoop(st.body);
      }
      NoBreakOfItsOwn(s, c.p.pos, st);
    }
  }

  // ----- Exactness -----

  lemma {:induction false} RestStays(s: Script, c: Config, n: nat)
    requires c.p.InRange() && Step(s, c) == c
    ensures Steps(s, c, n) == c
  {
    hide Step;
    if n > 0 {
      RestStays(s, c, n - 1);
    }
  }

  lemma BeginOnTheWay(s: Script, b: Block, p: Parser, rs: seq<bool>)
    requires s.cmds == Lines(b) && !s.ignore && WellFormed(b) && Idle(p) && Fits(p, b)
    ensures OnTheWay(s, Begin(p, rs), b) && !InLoop(p)
  {
    hide Fits; hide Lines;
    HoldsAll(s, b);
  }

  /** The tree goes on to its end behind such a `break`, and returns no error. */
  lemma TreeCompletes(s: Script, b: Block, p: Parser)
    requires !s.ignore && !Regular(b, false) && BreakFirst(b, false)
    ensures
      var m := Meant(s, b, p, Telling(b, false) + Rest(b, false));
      m.end == Completed && !m.ret
  {
    hide Interpret; hide Telling; hide Rest; hide BreakFirst; hide ToldLeaves;
    var mode, rs := Mode(false, false), Telling(b, false) + Rest(b, false);
    assert rs == Telling(b, false) + (Rest(b, false) + []);
    ToldFinishes(b, 0, p.fail, true, mode, []);
    NoLoopToLeave(b, 0, p.fail, true, false, rs);
    CompletesWell(b, 0, p.fail, true, mode, rs);
  }

  /** A `break` below an `if` of its own loop: for these results the run never rests as the tree says. */
  lemma BreakShows(s: Script, b: Block, p: Parser, n: nat)
    requires s.cmds == Lines(b) && !s.ignore && WellFormed(b) && Idle(p) && Fits(p, b)
    requires !Regular(b, false) && BreakFirst(b, false) && Unrescued(b, false)
    ensures
      var rs := Telling(b, false) + Rest(b, false);
      !RestsAs(s, p, Steps(s, Begin(p, rs), n), Meant(s, b, p, rs))
  {
    hide Step; hide Steps; hide Telling; hide Rest; hide Regular; hide BreakFirst; hide Unrescued; hide OnTheWay;
    hide Fits; hide Lines; hide Own; hide Short; hide Interpret;
    var rs := Telling(b, false) + Rest(b, false);
    var c := Begin(p, rs);
    BeginOnTheWay(s, b, p, rs);
    TreeCompletes(s, b, p);
    var d := ReachesBreak(s, c, b, Rest(b, false));
    var k: nat :| Steps(s, c, k) == d;
    if n >= k {
      StepsAdd(s, c, k, n - k);
      NeverCompletes(s, d, b, n - k);
    } else {
      StepsAdd(s, c, n, k - n);
      if RestsAs(s, p, Steps(s, c, n), Meant(s, b, p, rs)) {
        RestStays(s, Steps(s, c, n), k - n);
      }
    }
  }

  /**
    Exactness.  A well-formed script that fits the stacks means what its tree says for every
    list of results if and only if it is regular: no loop stands directly in another loop's
    body, and no `break` below an `if` of its own loop.  Where such a `break` is the first
    irregular place, this is for scripts that stop at failures, and in which no loop with a
    `break` of its own is around an irregular loop.
  */
  lemma RefinesIffRegular(s: Script, b: Block, p: Parser)
    requires s.cmds == Lines(b) && (s.ignore ==> CommandsEndLines(s))
    requires WellFormed(b) && Idle(p) && Fits(p, b)
    requires !Regular(b, false) && BreakFirst(b, false) ==> !s.ignore && Unrescued(b, false)
    ensures (forall rs: seq<bool> :: Agrees(s, b, p, rs)) <==> Regular(b, false)
  {
    hide Step; hide Steps; hide Telling; hide Rest; hide BreakFirst; hide Unrescued; hide RestsAs;
    hide Fits; hide Lines; hide Regular;
    if Regular(b, false) {
      forall rs: seq<bool> ensures Agrees(s, b, p, rs) {
        var n := ScriptRefinesTree(s, b, p, rs);
      }
    } else if BreakFirst(b, false) {
      var rs := Telling(b, false) + Rest(b, false);
      if Agrees(s, b, p, rs) {
        var n: nat :| RestsAs(s, p, Steps(s, Begin(p, rs), n), Meant(s, b, p, rs));
        BreakShows(s, b, p, n);
      }
    } else {
      var rs := Telling(b, false);
      if Agrees(s, b, p, rs) {
        var n: nat :| RestsAs(s, p, Steps(s, Begin(p, rs), n), Meant(s, b, p, rs));
        LoopInLoopShows(s, b, p, n);
      }
    }
  }
}
