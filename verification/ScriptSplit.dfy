/**
  Splitting the lines that hold a keyword and a command, and the run of the split script.
  Commands get new numbers, so positions in the parser and in the trace are renumbered.
*/
module ScriptSplit {
  import opened ScriptMachine
  import opened ScriptTree
  import opened ScriptRefinement
  import opened ScriptInvariant
  import opened ScriptShort
  import opened ScriptJoined

  // ----- New numbers -----

  predicate JointAt(cmds: seq<Words>, k: nat) {
    k < |cmds| && Joint(cmds[k])
  }

  /** The number of command `k` in the split script: each joint line before it counts twice. */
  function Place(cmds: seq<Words>, k: nat): (n: nat)
    ensures n >= k
  {
    if k == 0 then 0 else Place(cmds, k - 1) + if JointAt(cmds, k - 1) then 2 else 1
  }

  lemma {:induction false} PlaceGrows(cmds: seq<Words>, k: nat, m: nat)
    requires k < m
    ensures Place(cmds, k) + (if JointAt(cmds, k) then 2 else 1) <= Place(cmds, m)
    decreases m
  {
    if k + 1 < m {
      PlaceGrows(cmds, k, m - 1);
    }
  }

  lemma PlaceInjective(cmds: seq<Words>, k: nat, m: nat)
    requires Place(cmds, k) == Place(cmds, m)
    ensures k == m
  {
    if k < m {
      PlaceGrows(cmds, k, m);
    } else if m < k {
      PlaceGrows(cmds, m, k);
    }
  }

  /** One line, or a keyword and what stands behind it. */
  function Halves(ws: Words): (r: seq<Words>) {
    if Joint(ws) then [[ws[0]], ws[1..]] else [ws]
  }

  function SplitCmds(cmds: seq<Words>): (r: seq<Words>) {
    if cmds == [] then [] else SplitCmds(cmds[..|cmds| - 1]) + Halves(cmds[|cmds| - 1])
  }

  lemma {:induction false} PlacePrefix(cmds: seq<Words>, k: nat)
    requires k < |cmds|
    ensures forall i: nat :: i <= k ==> Place(cmds[..k], i) == Place(cmds, i)
    decreases k
  {
    forall i: nat | i <= k ensures Place(cmds[..k], i) == Place(cmds, i) {
      SamePlace(cmds[..k], cmds, i);
    }
  }

  lemma {:induction false} SamePlace(a: seq<Words>, b: seq<Words>, i: nat)
    requires a <= b && i <= |a|
    ensures Place(a, i) == Place(b, i)
    decreases i
  {
    if i > 0 {
      SamePlace(a, b, i - 1);
    }
  }

  /** Where the halves of command `k` stand. */
  lemma {:induction false} SplitAt(cmds: seq<Words>, k: nat)
    requires k < |cmds|
    ensures |SplitCmds(cmds)| == Place(cmds, |cmds|)
    ensures
      var s, at := SplitCmds(cmds), Place(cmds, k);
      if Joint(cmds[k]) then at + 1 < |s| && s[at] == [cmds[k][0]] && s[at + 1] == cmds[k][1..]
      else at < |s| && s[at] == cmds[k]
    decreases |cmds|
  {
    hide Joint;
    var m := |cmds| - 1;
    var front := cmds[..m];
    SplitLength(front);
    SplitLength(cmds);
    SamePlace(front, cmds, m);
    if k < m {
      SplitAt(front, k);
      SamePlace(front, cmds, k);
      PlaceGrows(cmds, k, m);
    }
  }

  lemma {:induction false} SplitLength(cmds: seq<Words>)
    ensures |SplitCmds(cmds)| == Place(cmds, |cmds|)
    decreases |cmds|
  {
    if cmds != [] {
      var front := cmds[..|cmds| - 1];
      SplitLength(front);
      SamePlace(front, cmds, |front|);
    }
  }

  /** The split script: a line still begins where it began. */
  function Split(j: Script): (s: Script) {
    Script(SplitCmds(j.cmds), set k | k in j.starts :: Place(j.cmds, k), j.ignore)
  }

  lemma StartsPlace(j: Script, k: nat)
    ensures Place(j.cmds, k) in Split(j).starts <==> k in j.starts
  {
    if Place(j.cmds, k) in Split(j).starts {
      var i :| i in j.starts && Place(j.cmds, i) == Place(j.cmds, k);
      PlaceInjective(j.cmds, i, k);
    }
  }

  lemma NoStartWithin(j: Script, k: nat)
    requires JointAt(j.cmds, k)
    ensures Place(j.cmds, k) + 1 !in Split(j).starts
  {
    if Place(j.cmds, k) + 1 in Split(j).starts {
      var i :| i in j.starts && Place(j.cmds, i) == Place(j.cmds, k) + 1;
      if k < i {
        PlaceGrows(j.cmds, k, i);
      } else if i < k {
        PlaceGrows(j.cmds, i, k);
      }
    }
  }

  lemma NextLineStep(s: Script, k: nat)
    requires k < |s.cmds|
    ensures s.NextLine(k) == if k + 1 == |s.cmds| || k + 1 in s.starts then k + 1 else s.NextLine(k + 1)
  {
  }

  lemma PlaceStep(j: Script, k: nat)
    requires k < |j.cmds|
    ensures
      var s, at, next := Split(j), Place(j.cmds, k), Place(j.cmds, k + 1);
      && at < next <= |s.cmds| && (next == |s.cmds| <==> k + 1 == |j.cmds|)
      && (next in s.starts <==> k + 1 in j.starts)
      && (at + 1 == next || (at + 2 == next && at + 1 !in s.starts))
  {
    hide Joint; hide SplitCmds; hide Split;
    SplitIs(j);
    SplitLength(j.cmds);
    StartsPlace(j, k + 1);
    if JointAt(j.cmds, k) {
      NoStartWithin(j, k);
    }
    if k + 1 < |j.cmds| {
      PlaceGrows(j.cmds, k + 1, |j.cmds|);
    }
  }

  /** From the last half of a line the run goes to the next line, or on. */
  lemma NextHalf(j: Script, k: nat)
    requires k < |j.cmds|
    ensures
      var s, at, next := Split(j), Place(j.cmds, k), Place(j.cmds, k + 1);
      && at < next <= |s.cmds| && (k + 1 < |j.cmds| ==> next < |s.cmds|)
      && s.NextLine(at) == s.NextLine(next - 1)
      && s.NextLine(next - 1) == if k + 1 == |j.cmds| || k + 1 in j.starts then next else s.NextLine(next)
  {
    hide Split; hide Place; hide Script.NextLine;
    PlaceStep(j, k);
    NextLineStep(Split(j), Place(j.cmds, k + 1) - 1);
    NextLineStep(Split(j), Place(j.cmds, k));
  }

  /** The next line of either half is the next line. */
  lemma {:induction false} NextLinePlace(j: Script, k: nat)
    requires k < |j.cmds|
    ensures
      var s, at := Split(j), Place(j.cmds, k);
      && at < |s.cmds| && s.NextLine(at) == Place(j.cmds, j.NextLine(k))
      && (Joint(j.cmds[k]) ==> at + 1 < |s.cmds| && s.NextLine(at + 1) == Place(j.cmds, j.NextLine(k)))
    decreases |j.cmds| - k
  {
    hide Joint; hide SplitCmds; hide Split; hide Script.NextLine;
    NextHalf(j, k);
    NextLineStep(j, k);
    if k + 1 < |j.cmds| {
      NextLinePlace(j, k + 1);
    }
  }

  lemma SplitIs(j: Script)
    ensures Split(j).cmds == SplitCmds(j.cmds) && Split(j).ignore == j.ignore
  {
  }

  // ----- The renumbered parser -----

  function Slot(cmds: seq<Words>, slot: LoopSlot): (r: LoopSlot) {
    slot.(topoffs := Place(cmds, slot.topoffs))
  }

  function SlotsOf(cmds: seq<Words>, lp: seq<LoopSlot>): (r: seq<LoopSlot>)
    ensures |r| == |lp|
  {
    seq(|lp|, i requires 0 <= i < |lp| => Slot(cmds, lp[i]))
  }

  function Moved(cmds: seq<Words>, p: Parser): (q: Parser)
    ensures p.InRange() ==> q.InRange()
  {
    p.(lp := SlotsOf(cmds, p.lp), pos := Place(cmds, p.pos))
  }

  lemma MovedLoop(cmds: seq<Words>, lp: seq<LoopSlot>, n: nat, slot: LoopSlot)
    requires n < |lp|
    ensures SlotsOf(cmds, lp[n := slot]) == SlotsOf(cmds, lp)[n := Slot(cmds, slot)]
  {
  }

  function MovedHandled(cmds: seq<Words>, h: Handled): (r: Handled) {
    match h
    case Accepted(p, ws) => Accepted(Moved(cmds, p), ws)
    case Rejected(p) => Rejected(Moved(cmds, p))
  }

  lemma TopMoves(cmds: seq<Words>, p: Parser)
    requires p.InRange()
    ensures
      var q, top := Moved(cmds, p), p.LoopTop();
      && q.LoopTop() == Slot(cmds, top) && q.lp[0].iendx == p.lp[0].iendx && Place(cmds, 0) == 0
      && q.AwaitsDo() == p.AwaitsDo() && q.CmdEnabled() == p.CmdEnabled() && q.AwaitsThen() == p.AwaitsThen()
  {
  }

  lemma ResetMoves(cmds: seq<Words>, p: Parser)
    requires p.InRange()
    ensures Moved(cmds, p).ResetLoops() == Moved(cmds, p.ResetLoops())
  {
    MovedLoop(cmds, p.lp, 0, LoopSlot(LoopNormal, true, p.lp[0].iendx, 0));
  }

  lemma LoopMoves(cmds: seq<Words>, p: Parser, foffs: nat, ws: Words)
    requires p.InRange()
    ensures HandleLoop(Moved(cmds, p), Place(cmds, foffs), ws) == MovedHandled(cmds, HandleLoop(p, foffs, ws))
  {
    hide PushLoop; hide Joint; hide Place; hide SlotsOf;
    var top := p.LoopTop();
    TopMoves(cmds, p);
    ResetMoves(cmds, p);
    MovedLoop(cmds, p.lp, p.lpndx, top.(state := LoopDo));
    MovedLoop(cmds, p.lp, p.lpndx, LoopSlot(LoopNormal, true, top.iendx, top.topoffs));
    if ws != [] {
      PushMoves(cmds, p, ws[0] == Until, foffs, ws[1..]);
    }
  }

  lemma PushMoves(cmds: seq<Words>, p: Parser, until: bool, foffs: nat, rest: Words)
    requires p.InRange()
    ensures PushLoop(Moved(cmds, p), until, Place(cmds, foffs), rest)
         == MovedHandled(cmds, PushLoop(p, until, foffs, rest))
  {
    hide Place; hide SlotsOf; hide Joint;
    TopMoves(cmds, p);
    ResetMoves(cmds, p);
    if p.lpndx + 1 < |p.lp| {
      var slot := LoopSlot(if until then LoopUntil else LoopWhile, p.CmdEnabled(), p.iendx, foffs);
      MovedLoop(cmds, p.lp, p.lpndx + 1, slot);
    }
  }

  lemma ItefTopMoves(cmds: seq<Words>, p: Parser)
    requires p.InRange()
    ensures
      var q := Moved(cmds, p);
      && q.ItefTop() == p.ItefTop() && q.iendx == p.iendx && q.AwaitsThen() == p.AwaitsThen()
      && q.ResetItefs() == Moved(cmds, p.ResetItefs())
      && (forall t :: q.WithItefTop(t) == Moved(cmds, p.WithItefTop(t)))
      && (p.iendx > 0 ==> q.(iendx := q.iendx - 1) == Moved(cmds, p.(iendx := p.iendx - 1)))
  {
    hide SlotsOf; hide Place;
  }

  lemma ItefMoves(cmds: seq<Words>, p: Parser, ws: Words)
    requires p.InRange()
    ensures HandleItef(Moved(cmds, p), ws) == MovedHandled(cmds, HandleItef(p, ws))
  {
    hide Moved; hide PushItef; hide Parser.ItefTop; hide Parser.AwaitsThen;
    hide Parser.ResetItefs; hide Parser.WithItefTop;
    ItefTopMoves(cmds, p);
    if |ws| > 1 {
      PushItefMoves(cmds, p, true, ws[1..][1..]);
      PushItefMoves(cmds, p, false, ws[1..]);
    }
  }

  lemma PushItefMoves(cmds: seq<Words>, p: Parser, inverted: bool, test: Words)
    requires p.InRange()
    ensures PushItef(Moved(cmds, p), inverted, test) == MovedHandled(cmds, PushItef(p, inverted, test))
  {
    hide Place; hide SlotsOf; hide Joint;
    TopMoves(cmds, p);
  }

  lemma SaveMoves(cmds: seq<Words>, p: Parser, failed: bool)
    requires p.InRange()
    ensures
      var (q, ret) := SaveResult(p, failed);
      SaveResult(Moved(cmds, p), failed) == (Moved(cmds, q), ret)
  {
    hide Place; hide SlotsOf; hide Joint;
    TopMoves(cmds, p);
    MovedLoop(cmds, p.lp, p.lpndx, p.LoopTop().(enable := !failed));
    MovedLoop(cmds, p.lp, p.lpndx, p.LoopTop().(enable := failed));
  }

  lemma BreakMoves(cmds: seq<Words>, p: Parser)
    requires p.InRange()
    ensures Break(Moved(cmds, p)) == Moved(cmds, Break(p)) && Break(p).InRange() == Break(Moved(cmds, p)).InRange()
  {
    hide Place; hide SlotsOf; hide Joint;
    TopMoves(cmds, p);
    MovedLoop(cmds, p.lp, p.lpndx, p.LoopTop().(enable := false));
  }

  function MovedParsed(cmds: seq<Words>, r: Parsed): (q: Parsed) {
    match r
    case Finished(p, ret) => Finished(Moved(cmds, p), ret)
    case Execute(p, argv) => Execute(Moved(cmds, p), argv)
  }

  lemma ParseMoves(cmds: seq<Words>, p: Parser, foffs: nat, ws: Words)
    requires p.InRange()
    ensures ParseCommand(Moved(cmds, p), Place(cmds, foffs), ws) == MovedParsed(cmds, ParseCommand(p, foffs, ws))
  {
    hide HandleLoop; hide HandleItef; hide SaveResult; hide Moved; hide Place;
    LoopMoves(cmds, p, foffs, ws);
    var h := HandleLoop(p, foffs, ws);
    SaveMoves(cmds, h.p, true);
    if h.Accepted? {
      ItefMoves(cmds, h.p, h.words);
      var g := HandleItef(h.p, h.words);
      SaveMoves(cmds, g.p, true);
      TopMoves(cmds, g.p);
    }
  }

  lemma PerformMoves(cmds: seq<Words>, p: Parser, foffs: nat, ws: Words, failed: bool)
    requires p.InRange()
    ensures
      var r := Perform(p, foffs, ws, failed);
      Perform(Moved(cmds, p), Place(cmds, foffs), ws, failed) == r.(p := Moved(cmds, r.p))
    ensures Asks(Moved(cmds, p), Place(cmds, foffs), ws) == Asks(p, foffs, ws)
  {
    hide ParseCommand; hide SaveResult; hide Moved; hide Place; hide Break;
    ParseMoves(cmds, p, foffs, ws);
    var q := ParseCommand(p, foffs, ws).p;
    SaveMoves(cmds, q, failed);
    BreakMoves(cmds, q);
    if Break(q).InRange() {
      SaveMoves(cmds, Break(q), false);
    }
  }
}
