/**
  What every script keeps, however ill-formed it is and whatever its commands return, and
  what `break` does below an `if`.
*/
module ScriptInvariant {
  import opened ScriptMachine

  lemma SaveKeepsInv(p: Parser, failed: bool)
    requires p.Inv()
    ensures SaveResult(p, failed).0.Inv()
  {
  }

  lemma PushKeepsInv(p: Parser, until: bool, foffs: int, rest: Words)
    requires p.Inv()
    ensures PushLoop(p, until, foffs, rest).p.Inv()
  {
  }

  lemma LoopKeepsInv(p: Parser, foffs: int, ws: Words)
    requires p.Inv()
    ensures HandleLoop(p, foffs, ws).p.Inv()
  {
    hide PushLoop;
    if ws != [] {
      PushKeepsInv(p, ws[0] == Until, foffs, ws[1..]);
    }
  }

  lemma ItefKeepsInv(p: Parser, ws: Words)
    requires p.Inv()
    ensures HandleItef(p, ws).p.Inv()
  {
  }

  lemma BreakKeepsInv(p: Parser)
    requires p.Inv()
    ensures Break(p).Inv()
  {
  }

  lemma ParseKeepsInv(p: Parser, foffs: int, ws: Words)
    requires p.Inv()
    ensures ParseCommand(p, foffs, ws).p.Inv()
  {
    hide SaveResult; hide HandleLoop; hide HandleItef;
    LoopKeepsInv(p, foffs, ws);
    var h := HandleLoop(p, foffs, ws);
    SaveKeepsInv(h.p, true);
    if h.Accepted? {
      ItefKeepsInv(h.p, h.words);
      SaveKeepsInv(HandleItef(h.p, h.words).p, true);
    }
  }

  lemma PerformKeepsInv(p: Parser, foffs: int, ws: Words, failed: bool)
    requires p.Inv()
    ensures Perform(p, foffs, ws, failed).p.Inv()
  {
    hide SaveResult; hide ParseCommand; hide Break;
    ParseKeepsInv(p, foffs, ws);
    var q := ParseCommand(p, foffs, ws).p;
    BreakKeepsInv(q);
    SaveKeepsInv(Break(q), false);
    SaveKeepsInv(q, failed);
  }

  lemma StepKeepsInv(s: Script, c: Config)
    requires c.p.Inv()
    ensures Step(s, c).p.Inv()
  {
    hide Perform; hide Asks;
    if !c.halted && c.p.pos < |s.cmds| {
      PerformKeepsInv(c.p.(pos := c.p.pos + 1), c.p.pos, s.cmds[c.p.pos], c.results != [] && c.results[0]);
    }
  }

  /**
    Over a whole run of any sequence of commands both stack indices stay in range, slot 0 of
    each stack stays NORMAL and every loop slot between slot 0 and the top is DO.
  */
  lemma {:induction false} RunKeepsInv(s: Script, c: Config, n: nat)
    requires c.p.Inv()
    ensures Steps(s, c, n).p.Inv()
    decreases n
  {
    hide Step;
    if n > 0 {
      StepKeepsInv(s, c);
      RunKeepsInv(s, Step(s, c), n - 1);
    }
  }

  /** The two "Shouldn't happen" branches are never taken, in any run. */
  lemma InternalErrorsUnreachable(s: Script, c: Config, n: nat)
    requires c.p.Inv()
    ensures
      var p := Steps(s, c, n).p;
      && !(p.LoopTop().state == LoopDo && p.lpndx < 1)
      && !((p.ItefTop().state == ItefThen || p.ItefTop().state == ItefElse) && p.iendx < 1)
  {
    hide Step; hide Steps;
    RunKeepsInv(s, c, n);
  }

  /**
    `break` pops the branches of the loop body at once, so the keyword that comes next is taken
    for the branch in which the loop itself stands: `fi` closes it, `else` moves it into its else
    part, and both are errors where there is no such branch.
  */
  lemma FiAfterBreak(p: Parser)
    requires p.Inv() && p.LoopTop().state == LoopDo && p.iendx > p.LoopTop().iendx
    ensures
      var k := p.LoopTop().iendx;
      var h, g := HandleItef(Break(p), [Fi]), HandleItef(Break(p), [Else]);
      && (h.Accepted? <==> p.ie[k].state == ItefThen || p.ie[k].state == ItefElse)
      && (h.Accepted? ==> h.p.iendx == k - 1)
      && (g.Accepted? <==> p.ie[k].state == ItefThen)
      && (g.Accepted? ==> g.p.iendx == k && g.p.ItefTop() == p.ie[k].(state := ItefElse))
      && (k == 0 ==> h.Rejected? && g.Rejected?)
  {
    assert [Fi][1..] == [] && [Else][1..] == [];
  }
}
