/**
  What a command of a script stands in: the branches and loops around it in the text.
*/
module ScriptFrames {
  import opened ScriptMachine
  import opened ScriptTree
  import opened ScriptRefinement

  /** What a command stands in: a branch, or the loop whose keyword stands at `top`. */
  datatype Frame = InBranch | InBody(top: nat)

  function After(f: seq<Frame>, ws: Words, at: nat): (g: seq<Frame>) {
    if ws == [] then f
    else
      match ws[0]
      case While => f + [InBody(at)]
      case Until => f + [InBody(at)]
      case If => f + [InBranch]
      case Fi => if f != [] && f[|f| - 1] == InBranch then f[..|f| - 1] else f
      case Done => if f != [] && f[|f| - 1].InBody? then f[..|f| - 1] else f
      case _ => f
  }

  /** The frames around command `k`, outermost first. */
  function Frames(cmds: seq<Words>, k: nat): (f: seq<Frame>)
    requires k <= |cmds|
  {
    if k == 0 then [] else After(Frames(cmds, k - 1), cmds[k - 1], k - 1)
  }

  /** The number of branches. */
  function Depth(f: seq<Frame>): nat {
    if f == [] then 0 else Depth(f[..|f| - 1]) + if f[|f| - 1] == InBranch then 1 else 0
  }

  lemma DepthPush(f: seq<Frame>, x: Frame)
    ensures Depth(f + [x]) == Depth(f) + if x == InBranch then 1 else 0
  {
    assert (f + [x])[..|f|] == f;
  }

  /** What stands below a loop is what the loop itself stands in. */
  lemma {:induction false} BelowLoop(cmds: seq<Words>, q: nat, i: nat)
    requires q <= |cmds| && i < |Frames(cmds, q)| && Frames(cmds, q)[i].InBody?
    ensures
      var t := Frames(cmds, q)[i].top;
      t < q && Frames(cmds, t) == Frames(cmds, q)[..i]
  {
    var g, f := Frames(cmds, q - 1), Frames(cmds, q);
    if i < |g| && g[i] == f[i] {
      BelowLoop(cmds, q - 1, i);
      assert g[..i] == f[..i];
    } else {
      assert f[..i] == g;
    }
  }

  predicate IsLoopLine(ws: Words) {
    ws != [] && (ws[0] == While || ws[0] == Until) && PlainCommand(ws[1..])
  }

  predicate IsIfLine(ws: Words) {
    ws != [] && ws[0] == If && |ws| > 1 && (PlainCommand(ws[1..]) || (ws[1] == Bang && PlainCommand(ws[2..])))
  }

  /** A command as it can stand in a well-formed script. */
  predicate Shaped(ws: Words) {
    || ws == [] || PlainCommand(ws) || ws == [BreakName] || IsLoopLine(ws) || IsIfLine(ws)
    || ws == [Then] || ws == [Else] || ws == [Fi] || ws == [Do] || ws == [Done]
  }

  /** Command `k` stands where it may stand. */
  predicate Proper(cmds: seq<Words>, k: nat) {
    && k < |cmds| && Shaped(cmds[k])
    && (IsLoopLine(cmds[k]) ==> k + 1 < |cmds| && cmds[k + 1] == [Do])
    && (IsIfLine(cmds[k]) ==> k + 1 < |cmds| && cmds[k + 1] == [Then])
    && var f := Frames(cmds, k);
      && (cmds[k] == [Fi] ==> f != [] && f[|f| - 1] == InBranch)
      && (cmds[k] == [Done] ==> f != [] && f[|f| - 1].InBody?)
  }

  /** A block ends in the frames in which it began. */
  lemma {:induction false} FramesBehind(s: Script, at: nat, b: Block)
    requires Holds(s, at, Lines(b)) && WellFormed(b)
    ensures Frames(s.cmds, at + |Lines(b)|) == Frames(s.cmds, at)
    decreases b, 0
  {
    hide Frames;
    if b.Cons? {
      HoldsSplit(s, at, LinesOf(b.head), Lines(b.tail));
      FramesBehindStmt(s, at, b.head);
      FramesBehind(s, at + |LinesOf(b.head)|, b.tail);
    }
  }

  lemma {:induction false} FramesBehindStmt(s: Script, at: nat, st: Stmt)
    requires Holds(s, at, LinesOf(st)) && WellFormedStmt(st)
    ensures Frames(s.cmds, at + |LinesOf(st)|) == Frames(s.cmds, at)
    decreases st, 1
  {
    if st.Branch? {
      BranchFrames(s, at, st);
    } else if st.Loop? {
      LoopFrames(s, at, st);
    } else {
      HoldsOne(s, at, LinesOf(st)[0]);
    }
  }

  /** The frames along a branch. */
  lemma {:induction false} BranchFrames(s: Script, at: nat, st: Stmt)
    requires st.Branch? && Holds(s, at, LinesOf(st)) && WellFormedStmt(st)
    ensures at + |LinesOf(st)| <= |s.cmds|
    ensures
      var f, mid := Frames(s.cmds, at), at + 2 + |Lines(st.thn)|;
      && Frames(s.cmds, at + 1) == Frames(s.cmds, at + 2) == Frames(s.cmds, mid) == f + [InBranch]
      && (st.hasElse ==> Frames(s.cmds, mid + 1) == f + [InBranch])
      && Frames(s.cmds, at + |LinesOf(st)| - 1) == f + [InBranch]
      && Frames(s.cmds, at + |LinesOf(st)|) == f
    decreases st, 0
  {
    hide Holds; hide LinesOf; hide Lines; hide IfLine; hide Frames; hide After;
    HoldsBranch(s, at, st);
    var f, mid, end := Frames(s.cmds, at), at + 2 + |Lines(st.thn)|, at + |LinesOf(st)|;
    FramesNext(s.cmds, at);
    AfterIf(f, at, st);
    FramesNext(s.cmds, at + 1);
    AfterKeyword(f + [InBranch], at + 1);
    FramesBehind(s, at + 2, st.thn);
    if st.hasElse {
      FramesNext(s.cmds, mid);
      AfterKeyword(f + [InBranch], mid);
      FramesBehind(s, mid + 1, st.els);
    }
    FramesNext(s.cmds, end - 1);
    AfterFi(f, end - 1);
  }

  lemma FramesNext(cmds: seq<Words>, k: nat)
    requires k < |cmds|
    ensures Frames(cmds, k + 1) == After(Frames(cmds, k), cmds[k], k)
  {
  }

  lemma AfterIf(f: seq<Frame>, at: nat, st: Stmt)
    requires st.Branch?
    ensures After(f, IfLine(st.inverted, st.test), at) == f + [InBranch]
  {
  }

  lemma AfterKeyword(f: seq<Frame>, at: nat)
    ensures After(f, [Then], at) == After(f, [Else], at) == f
  {
  }

  lemma AfterFi(f: seq<Frame>, at: nat)
    ensures After(f + [InBranch], [Fi], at) == f
  {
    assert (f + [InBranch])[..|f|] == f;
  }

  /** The frames along a loop. */
  lemma {:induction false} LoopFrames(s: Script, at: nat, st: Stmt)
    requires st.Loop? && Holds(s, at, LinesOf(st)) && WellFormedStmt(st)
    ensures at + |LinesOf(st)| <= |s.cmds|
    ensures
      var f, end := Frames(s.cmds, at), at + |LinesOf(st)|;
      && Frames(s.cmds, at + 1) == Frames(s.cmds, at + 2) == Frames(s.cmds, end - 1) == f + [InBody(at)]
      && Frames(s.cmds, end) == f
    decreases st, 0
  {
    hide Holds; hide LinesOf;
    HoldsLoop(s, at, st);
    FramesBehind(s, at + 2, st.body);
  }

  /** Every command of a block is in its place, within the frames of the block. */
  lemma {:induction false} BlockProper(s: Script, at: nat, b: Block, k: nat)
    requires Holds(s, at, Lines(b)) && WellFormed(b) && at <= k < at + |Lines(b)|
    ensures Proper(s.cmds, k) && Frames(s.cmds, at) <= Frames(s.cmds, k)
    decreases b, 0
  {
    hide Frames; hide Proper;
    HoldsSplit(s, at, LinesOf(b.head), Lines(b.tail));
    FramesBehindStmt(s, at, b.head);
    if k < at + |LinesOf(b.head)| {
      StmtProper(s, at, b.head, k);
    } else {
      BlockProper(s, at + |LinesOf(b.head)|, b.tail, k);
    }
  }

  lemma {:induction false} StmtProper(s: Script, at: nat, st: Stmt, k: nat)
    requires Holds(s, at, LinesOf(st)) && WellFormedStmt(st) && at <= k < at + |LinesOf(st)|
    ensures Proper(s.cmds, k) && Frames(s.cmds, at) <= Frames(s.cmds, k)
    decreases st, 2
  {
    hide Frames;
    if st.Branch? {
      BranchProper(s, at, st, k);
    } else if st.Loop? {
      LoopProper(s, at, st, k);
    } else {
      HoldsOne(s, at, LinesOf(st)[0]);
    }
  }

  lemma {:induction false} BranchProper(s: Script, at: nat, st: Stmt, k: nat)
    requires Holds(s, at, LinesOf(st)) && WellFormedStmt(st) && st.Branch? && at <= k < at + |LinesOf(st)|
    ensures Proper(s.cmds, k) && Frames(s.cmds, at) <= Frames(s.cmds, k)
    decreases st, 1
  {
    hide Frames; hide Proper; hide Holds; hide LinesOf; hide IfLine;
    HoldsBranch(s, at, st);
    BranchFrames(s, at, st);
    var mid := at + 2 + |Lines(st.thn)|;
    if k == at {
      IfLineShaped(st.inverted, st.test);
      OpensProper(s.cmds, k);
    } else if at + 2 <= k < mid {
      BlockProper(s, at + 2, st.thn, k);
    } else if st.hasElse && mid < k < mid + 1 + |Lines(st.els)| {
      BlockProper(s, mid + 1, st.els, k);
    } else {
      KeywordProper(s.cmds, k, Frames(s.cmds, at), InBranch);
    }
  }

  lemma {:induction false} LoopProper(s: Script, at: nat, st: Stmt, k: nat)
    requires Holds(s, at, LinesOf(st)) && WellFormedStmt(st) && st.Loop? && at <= k < at + |LinesOf(st)|
    ensures Proper(s.cmds, k) && Frames(s.cmds, at) <= Frames(s.cmds, k)
    decreases st, 1
  {
    hide Frames; hide Proper; hide Holds; hide LinesOf; hide LoopLine;
    HoldsLoop(s, at, st);
    LoopFrames(s, at, st);
    if k == at {
      LoopLineShaped(st.until, st.test);
      OpensProper(s.cmds, k);
    } else if at + 2 <= k < at + 2 + |Lines(st.body)| {
      BlockProper(s, at + 2, st.body, k);
    } else {
      KeywordProper(s.cmds, k, Frames(s.cmds, at), InBody(at));
    }
  }

  lemma OpensProper(cmds: seq<Words>, k: nat)
    requires k + 1 < |cmds|
    requires (IsIfLine(cmds[k]) && cmds[k + 1] == [Then]) || (IsLoopLine(cmds[k]) && cmds[k + 1] == [Do])
    ensures Proper(cmds, k)
  {
  }

  lemma KeywordProper(cmds: seq<Words>, k: nat, f: seq<Frame>, x: Frame)
    requires k < |cmds| && Frames(cmds, k) == f + [x]
    requires
      || cmds[k] == [Then] || cmds[k] == [Else] || cmds[k] == [Do]
      || (cmds[k] == [Fi] && x == InBranch) || (cmds[k] == [Done] && x.InBody?)
    ensures Proper(cmds, k) && f <= Frames(cmds, k)
  {
  }

  lemma IfLineShaped(inverted: bool, test: Words)
    requires PlainCommand(test)
    ensures IsIfLine(IfLine(inverted, test)) && !IsLoopLine(IfLine(inverted, test))
  {
    var ws := IfLine(inverted, test);
    assert if inverted then ws[2..] == test else ws[1..] == test;
  }

  lemma LoopLineShaped(until: bool, test: Words)
    requires PlainCommand(test)
    ensures IsLoopLine(LoopLine(until, test)) && !IsIfLine(LoopLine(until, test))
  {
    assert LoopLine(until, test)[1..] == test;
  }
}
