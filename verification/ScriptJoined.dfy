/**
  Commands that stand on the line of a `then`, `else` or `do`.  A script with such lines runs as
  the one in which the keyword and the command behind it are two commands, so it means what the
  tree of that script says.
*/
module ScriptJoined {
  import opened ScriptMachine
  import opened ScriptTree
  import opened ScriptRefinement
  import opened ScriptInvariant
  import opened ScriptFrames
  import opened ScriptShort

  // ----- What follows a keyword -----

  predicate LoopWord(w: Word) {
    w == While || w == Until || w == Do || w == Done
  }

  predicate ItefWord(w: Word) {
    w == If || w == Then || w == Else || w == Fi
  }

  /** A keyword with a command behind it that is read as if it stood alone. */
  predicate Joint(ws: Words) {
    |ws| > 1 && !LoopWord(ws[1]) && (ws[0] == Do || (!ItefWord(ws[1]) && (ws[0] == Then || ws[0] == Else)))
  }

  /** Whatever stands behind `then` is run as a command, other keywords included. */
  lemma BehindThen(p: Parser, foffs: nat, ws: Words)
    requires p.InRange() && !p.AwaitsDo() && p.AwaitsThen()
    ensures
      var q := p.WithItefTop(p.ItefTop().(state := ItefThen));
      ParseCommand(p, foffs, [Then] + ws) == if ws == [] || !q.CmdEnabled() then Finished(q, false) else Execute(q, ws)
  {
    assert ([Then] + ws)[1..] == ws;
  }

  lemma BehindElse(p: Parser, foffs: nat, ws: Words)
    requires p.InRange() && !p.AwaitsDo() && p.ItefTop().state == ItefThen
    ensures
      var q := p.WithItefTop(p.ItefTop().(state := ItefElse));
      ParseCommand(p, foffs, [Else] + ws) == if ws == [] || !q.CmdEnabled() then Finished(q, false) else Execute(q, ws)
  {
    assert ([Else] + ws)[1..] == ws;
  }

  /** Behind `do` an `if` is still read, but another loop keyword is run as a command. */
  lemma BehindDo(p: Parser, foffs: nat, ws: Words)
    requires p.InRange() && p.AwaitsDo() && !p.AwaitsThen() && (ws == [] || !ItefWord(ws[0]))
    ensures
      var q := p.WithLoopTop(p.LoopTop().(state := LoopDo));
      ParseCommand(p, foffs, [Do] + ws) == if ws == [] || !q.CmdEnabled() then Finished(q, false) else Execute(q, ws)
  {
    assert ([Do] + ws)[1..] == ws;
  }

  // ----- A keyword and its command in one go or one after the other -----

  /** No `do` comes where a branch waits for `then`, and not both are waited for. */
  predicate Poised(p: Parser, ws: Words) {
    p.InRange() && !(p.AwaitsDo() && p.AwaitsThen()) && (ws != [] && ws[0] == Do ==> !p.AwaitsThen())
  }

  lemma ThenAlone(p: Parser, foffs: nat, ws: Words)
    requires Poised(p, ws) && Joint(ws) && ws[0] == Then
    ensures
      var r := ParseCommand(p, foffs, [Then]);
      r.Finished? && ParseCommand(p, foffs, ws) == if r.ret then r else ParseCommand(r.p, foffs, ws[1..])
  {
    assert ws == [Then] + ws[1..] && [Then][1..] == [];
    if p.AwaitsThen() {
      BehindThen(p, foffs, ws[1..]);
      ParseThen(p, foffs);
    }
  }

  lemma ElseAlone(p: Parser, foffs: nat, ws: Words)
    requires Poised(p, ws) && Joint(ws) && ws[0] == Else
    ensures
      var r := ParseCommand(p, foffs, [Else]);
      r.Finished? && ParseCommand(p, foffs, ws) == if r.ret then r else ParseCommand(r.p, foffs, ws[1..])
  {
    assert ws == [Else] + ws[1..] && [Else][1..] == [];
    if !p.AwaitsDo() && p.ItefTop().state == ItefThen {
      BehindElse(p, foffs, ws[1..]);
      ParseElse(p, foffs);
    }
  }

  lemma DoAlone(p: Parser, foffs: nat, ws: Words)
    requires Poised(p, ws) && Joint(ws) && ws[0] == Do
    ensures
      var r := ParseCommand(p, foffs, [Do]);
      r.Finished? && ParseCommand(p, foffs, ws) == if r.ret then r else ParseCommand(r.p, foffs, ws[1..])
  {
    hide HandleItef;
    assert [Do][1..] == [];
    ItefOfNothing(p.WithLoopTop(p.LoopTop().(state := LoopDo)));
    OtherWord(p.WithLoopTop(p.LoopTop().(state := LoopDo)), foffs, ws[1..]);
  }

  lemma ItefOfNothing(p: Parser)
    requires p.InRange()
    ensures HandleItef(p, []) == Accepted(p, [])
  {
  }

  lemma OtherWord(p: Parser, foffs: nat, ws: Words)
    requires p.InRange() && !p.AwaitsDo() && (ws == [] || !LoopWord(ws[0]))
    ensures HandleLoop(p, foffs, ws) == Accepted(p, ws)
  {
  }

  /** The keyword is taken by itself, or is an error in both cases. */
  lemma KeywordAlone(p: Parser, foffs: nat, ws: Words)
    requires Poised(p, ws) && Joint(ws)
    ensures
      var r := ParseCommand(p, foffs, [ws[0]]);
      r.Finished? && ParseCommand(p, foffs, ws) == if r.ret then r else ParseCommand(r.p, foffs, ws[1..])
  {
    hide ParseCommand;
    if ws[0] == Then {
      ThenAlone(p, foffs, ws);
    } else if ws[0] == Else {
      ElseAlone(p, foffs, ws);
    } else {
      DoAlone(p, foffs, ws);
    }
  }

  // ----- In a well-formed script a keyword is waited for only where it stands -----

  /** Neither `do` nor `then` is waited for, now or behind a `break`. */
  predicate Quiet(p: Parser) {
    && p.InRange() && !p.AwaitsDo()
    && (forall i :: 0 <= i <= p.iendx ==> p.ie[i].state != ItefIf)
    && (forall n, i :: 0 < n <= p.lpndx && 0 <= i <= p.lp[n].iendx && i < |p.ie| ==> p.ie[i].state != ItefIf)
  }

  lemma SettledQuiet(cmds: seq<Words>, p: Parser)
    requires Settled(cmds, p) && !At(cmds, p.pos, [Then]) && !At(cmds, p.pos, [Do])
    ensures Quiet(p)
  {
  }

  lemma QuietSettled(cmds: seq<Words>, p: Parser)
    requires Quiet(p)
    ensures Settled(cmds, p)
  {
  }

  lemma QuietSave(p: Parser, failed: bool)
    requires Quiet(p)
    ensures Quiet(SaveResult(p, failed).0)
  {
  }

  lemma QuietLoop(p: Parser, foffs: nat, ws: Words)
    requires p.Inv() && Quiet(p) && (ws == [] || (ws[0] != While && ws[0] != Until))
    ensures Quiet(HandleLoop(p, foffs, ws).p)
  {
  }

  lemma QuietItef(p: Parser, ws: Words)
    requires p.Inv() && Quiet(p) && (ws == [] || ws[0] != If)
    ensures Quiet(HandleItef(p, ws).p)
  {
  }

  lemma QuietBreak(p: Parser)
    requires p.Inv() && Quiet(p)
    ensures Quiet(Break(p))
  {
  }

  lemma QuietParse(p: Parser, foffs: nat, ws: Words)
    requires p.Inv() && Quiet(p) && (ws == [] || (ws[0] != While && ws[0] != Until && ws[0] != If))
    ensures Quiet(ParseCommand(p, foffs, ws).p)
  {
    hide SaveResult; hide HandleItef; hide Quiet; hide PushLoop;
    QuietLoop(p, foffs, ws);
    LoopKeepsInv(p, foffs, ws);
    QuietLoopWords(p, foffs, ws);
    var h := HandleLoop(p, foffs, ws);
    hide HandleLoop;
    QuietSave(h.p, true);
    if h.Accepted? {
      QuietItef(h.p, h.words);
      QuietSave(HandleItef(h.p, h.words).p, true);
    }
  }

  lemma QuietLoopWords(p: Parser, foffs: nat, ws: Words)
    requires Quiet(p) && (ws == [] || (ws[0] != While && ws[0] != Until && ws[0] != If))
    ensures
      var h := HandleLoop(p, foffs, ws);
      h.Accepted? ==> h.words == [] || h.words[0] != If
  {
  }

  lemma QuietPerform(p: Parser, foffs: nat, ws: Words, failed: bool)
    requires p.Inv() && Quiet(p) && (ws == [] || (ws[0] != While && ws[0] != Until && ws[0] != If))
    ensures Quiet(Perform(p, foffs, ws, failed).p)
  {
    hide SaveResult; hide ParseCommand; hide Quiet; hide Break;
    QuietParse(p, foffs, ws);
    ParseKeepsInv(p, foffs, ws);
    var q := ParseCommand(p, foffs, ws).p;
    QuietSave(q, failed);
    QuietBreak(q);
    BreakKeepsInv(q);
    if Break(q).InRange() {
      QuietSave(Break(q), false);
    }
  }

  lemma SettledIf(cmds: seq<Words>, p: Parser, inverted: bool, test: Words, foffs: nat, failed: bool)
    requires p.Inv() && Quiet(p) && PlainCommand(test) && At(cmds, p.pos, [Then])
    ensures
      var r := Perform(p, foffs, IfLine(inverted, test), failed);
      Settled(cmds, r.p) && (r.ret ==> Quiet(r.p))
  {
    hide Perform; hide Asks; hide ParseCommand; hide IfLine;
    if p.iendx + 1 < |p.ie| {
      IfPerforms(p, foffs, inverted, test, failed);
      IfSucceeds(p, foffs, inverted, test, failed);
    } else {
      FullIf(p, foffs, inverted, test, failed);
      QuietSettled(cmds, p.ResetItefs().(fail := true));
    }
  }

  lemma IfSucceeds(p: Parser, foffs: nat, inverted: bool, test: Words, failed: bool)
    requires p.InRange() && !p.AwaitsDo() && !p.AwaitsThen() && p.iendx + 1 < |p.ie| && PlainCommand(test)
    ensures !Perform(p, foffs, IfLine(inverted, test), failed).ret
  {
    hide ParseCommand; hide SaveResult; hide IfLine;
    ParseIf(p, foffs, inverted, test);
    SaveBranchTest(p, ItefSlot(ItefIf, false, !p.CmdEnabled(), inverted), failed);
  }

  lemma FullIf(p: Parser, foffs: nat, inverted: bool, test: Words, failed: bool)
    requires p.Inv() && Quiet(p) && p.iendx + 1 == |p.ie| && PlainCommand(test)
    ensures Perform(p, foffs, IfLine(inverted, test), failed).p == p.ResetItefs().(fail := true)
    ensures Quiet(p.ResetItefs().(fail := true))
  {
    var ws := IfLine(inverted, test);
    assert if inverted then ws[2..] == test && ws[1..][1..] == test else ws[1..] == test;
    assert HandleItef(p, ws) == Rejected(p.ResetItefs());
  }

  lemma SettledLoop(cmds: seq<Words>, p: Parser, until: bool, test: Words, foffs: nat, failed: bool)
    requires p.Inv() && Quiet(p) && PlainCommand(test) && At(cmds, p.pos, [Do])
    ensures
      var r := Perform(p, foffs, LoopLine(until, test), failed);
      Settled(cmds, r.p) && (r.ret ==> Quiet(r.p))
  {
    hide Perform; hide Asks; hide ParseCommand; hide LoopLine;
    if p.lpndx + 1 < |p.lp| {
      LoopPerforms(p, foffs, until, test, failed);
      LoopSucceeds(p, foffs, until, test, failed);
    } else {
      FullLoops(p, foffs, until, test, failed);
      QuietSettled(cmds, p.ResetLoops().(fail := true));
    }
  }

  lemma LoopSucceeds(p: Parser, foffs: nat, until: bool, test: Words, failed: bool)
    requires p.InRange() && !p.AwaitsDo() && !p.AwaitsThen() && p.lpndx + 1 < |p.lp| && PlainCommand(test)
    ensures !Perform(p, foffs, LoopLine(until, test), failed).ret
  {
    hide ParseCommand; hide SaveResult; hide LoopLine;
    ParseLoop(p, foffs, until, test);
    SaveLoopTest(p, LoopSlot(if until then LoopUntil else LoopWhile, p.CmdEnabled(), p.iendx, foffs), failed);
  }

  lemma FullLoops(p: Parser, foffs: nat, until: bool, test: Words, failed: bool)
    requires p.Inv() && Quiet(p) && p.lpndx + 1 == |p.lp| && PlainCommand(test)
    ensures Perform(p, foffs, LoopLine(until, test), failed).p == p.ResetLoops().(fail := true)
    ensures Quiet(p.ResetLoops().(fail := true))
  {
    assert LoopLine(until, test)[1..] == test;
    assert HandleLoop(p, foffs, LoopLine(until, test)) == Rejected(p.ResetLoops());
  }

  lemma SettledThen(p: Parser, foffs: nat, cmds: seq<Words>, k: nat, failed: bool)
    requires p.Inv() && Settled(cmds, p.(pos := k)) && At(cmds, k, [Then])
    ensures Quiet(Perform(p, foffs, [Then], failed).p)
  {
    hide Perform; hide Asks; hide ParseCommand;
    if p.AwaitsThen() {
      ParseThen(p, foffs);
      FinishedPerforms(p, foffs, [Then], failed);
    } else {
      QuietPerform(p, foffs, [Then], failed);
    }
  }

  lemma SettledDo(p: Parser, foffs: nat, cmds: seq<Words>, k: nat, failed: bool)
    requires p.Inv() && Settled(cmds, p.(pos := k)) && At(cmds, k, [Do])
    ensures Quiet(Perform(p, foffs, [Do], failed).p)
  {
    hide Perform; hide Asks; hide ParseCommand;
    if p.AwaitsDo() {
      ParseDo(p, foffs);
      FinishedPerforms(p, foffs, [Do], failed);
    } else {
      QuietPerform(p, foffs, [Do], failed);
    }
  }

  lemma FinishedPerforms(p: Parser, foffs: nat, ws: Words, failed: bool)
    requires p.InRange() && ParseCommand(p, foffs, ws).Finished?
    ensures
      var r := ParseCommand(p, foffs, ws);
      Perform(p, foffs, ws, failed) == Performed(r.p, r.ret, false, [])
  {
    hide ParseCommand;
  }

  /** One command; `p` has already read on. */
  lemma SettledPerform(cmds: seq<Words>, k: nat, p: Parser, failed: bool)
    requires p.Inv() && p.pos == k + 1 && Settled(cmds, p.(pos := k)) && Proper(cmds, k)
    ensures
      var r := Perform(p, k, cmds[k], failed);
      Settled(cmds, r.p) && (r.ret ==> Quiet(r.p))
  {
    hide Perform; hide Asks; hide Quiet; hide Frames;
    var ws := cmds[k];
    if ws == [Then] {
      SettledThen(p, k, cmds, k, failed);
      QuietSettled(cmds, Perform(p, k, ws, failed).p);
    } else if ws == [Do] {
      SettledDo(p, k, cmds, k, failed);
      QuietSettled(cmds, Perform(p, k, ws, failed).p);
    } else {
      SettledQuiet(cmds, p.(pos := k));
      QuietMoves(p, k);
      if IsIfLine(ws) {
        var inverted := ws[1] == Bang;
        var test := if inverted then ws[2..] else ws[1..];
        assert ws == IfLine(inverted, test);
        SettledIf(cmds, p, inverted, test, k, failed);
      } else if IsLoopLine(ws) {
        assert ws == LoopLine(ws[0] == Until, ws[1..]);
        SettledLoop(cmds, p, ws[0] == Until, ws[1..], k, failed);
      } else {
        QuietPerform(p, k, ws, failed);
        QuietSettled(cmds, Perform(p, k, ws, failed).p);
      }
    }
  }

  lemma QuietMoves(p: Parser, pos: nat)
    requires Quiet(p.(pos := pos))
    ensures Quiet(p)
  {
  }

  /** A state of a run of a well-formed script. */
  predicate OnTrack(cmds: seq<Words>, p: Parser) {
    p.Inv() && Settled(cmds, p)
  }

  lemma TrackStep(s: Script, c: Config, b: Block)
    requires s.cmds == Lines(b) && WellFormed(b) && OnTrack(s.cmds, c.p)
    ensures OnTrack(s.cmds, Step(s, c).p)
  {
    hide Perform; hide Asks; hide Settled; hide Proper; hide Lines;
    StepKeepsInv(s, c);
    if !c.halted && c.p.pos < |s.cmds| {
      var k := c.p.pos;
      AllProper(s, b, k);
      var failed := c.results != [] && c.results[0];
      InvMoves(c.p);
      assert c.p.(pos := k + 1).(pos := k) == c.p;
      SettledPerform(s.cmds, k, c.p.(pos := k + 1), failed);
      var r := Perform(c.p.(pos := k + 1), k, s.cmds[k], failed);
      if r.ret {
        QuietSettled(s.cmds, r.p);
        QuietAnywhere(s.cmds, r.p, s.NextLine(k));
      }
    }
  }

  lemma QuietAnywhere(cmds: seq<Words>, p: Parser, pos: nat)
    requires Quiet(p)
    ensures Settled(cmds, p.(pos := pos))
  {
  }

  lemma AllProper(s: Script, b: Block, k: nat)
    requires s.cmds == Lines(b) && WellFormed(b) && k < |s.cmds|
    ensures Proper(s.cmds, k)
  {
    hide Proper;
    assert s.cmds[0..|s.cmds|] == s.cmds;
    BlockProper(s, 0, b, k);
  }
}
