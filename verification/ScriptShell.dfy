/**
  The script parser as it is run: `struct nsh_parser_s` with its two fixed arrays, updated
  in place.  Every method is proved against the value-level machine of ScriptMachine.
*/
module ScriptShell {
  import opened ScriptMachine
  import M = ScriptMachine
  import ScriptInvariant

  class Shell {
    const lps: array<LoopSlot>
    const ies: array<ItefSlot>
    var lpndx: nat
    var iendx: nat
    var fail: bool
    var pos: nat

    ghost predicate Valid()
      reads this, lps, ies
    {
      lpndx < lps.Length && iendx < ies.Length
    }

    /** The parser state that the machine speaks about. */
    ghost function State(): (p: Parser)
      reads this, lps, ies
    {
      Parser(lps[..], lpndx, ies[..], iendx, fail, pos)
    }

    /** A zero-filled parser, as `nsh_newconsole` allocates it. */
    constructor (depth: nat)
      requires depth > 0
      ensures fresh(lps) && fresh(ies) && lps.Length == depth && ies.Length == depth
      ensures Valid() && State().Inv() && lpndx == 0 && iendx == 0 && !fail && pos == 0
      ensures !State().ie[0].disabled
    {
      lps := new LoopSlot[depth](_ => LoopSlot(LoopNormal, false, 0, 0));
      ies := new ItefSlot[depth](_ => ItefSlot(ItefNormal, false, false, false));
      lpndx, iendx, fail, pos := 0, 0, false, 0;
    }

    method CmdEnabled() returns (enabled: bool)
      requires Valid()
      ensures enabled == State().CmdEnabled()
    {
      var loopEnabled := true;
      if lps[lpndx].state == LoopDo {
        loopEnabled := lps[lpndx].enable;
      }
      var itefEnabled := !ies[iendx].disabled;
      if itefEnabled {
        match ies[iendx].state
        case ItefThen => itefEnabled := !ies[iendx].ifcond;
        case ItefElse => itefEnabled := ies[iendx].ifcond;
        case _ =>
      }
      enabled := loopEnabled && itefEnabled;
    }

    method SaveResult(failed: bool) returns (ret: bool)
      requires Valid()
      modifies this, lps, ies
      ensures Valid() && (State(), ret) == M.SaveResult(old(State()), failed)
    {
      ghost var lp, ie := lps[..], ies[..];
      if lps[lpndx].state == LoopWhile {
        fail := false;
        lps[lpndx] := lps[lpndx].(enable := !failed);
        assert lps[..] == lp[lpndx := lps[lpndx]];
        ret := false;
      } else if lps[lpndx].state == LoopUntil {
        fail := false;
        lps[lpndx] := lps[lpndx].(enable := failed);
        assert lps[..] == lp[lpndx := lps[lpndx]];
        ret := false;
      } else if ies[iendx].state == ItefIf {
        fail := false;
        ies[iendx] := ies[iendx].(ifcond := ies[iendx].inverted != failed);
        assert ies[..] == ie[iendx := ies[iendx]];
        ret := false;
      } else {
        fail := failed;
        ret := failed;
      }
    }

    method LoopError()
      requires Valid()
      modifies this, lps
      ensures Valid() && State() == old(State()).ResetLoops()
    {
      ghost var lp := lps[..];
      lpndx := 0;
      lps[0] := lps[0].(state := LoopNormal, enable := true, topoffs := 0);
      assert lps[..] == lp[0 := lps[0]];
    }

    method ItefError()
      requires Valid()
      modifies this, ies
      ensures Valid() && State() == old(State()).ResetItefs()
    {
      ghost var ie := ies[..];
      iendx := 0;
      ies[0] := ItefSlot(ItefNormal, false, false, false);
      assert ies[..] == ie[0 := ies[0]];
    }

    /** `nsh_loop`: on success `rest` are the words still to be processed. */
    method Loop(foffs: int, ws: Words) returns (ok: bool, rest: Words)
      requires Valid()
      modifies this, lps
      ensures Valid() && HandleLoop(old(State()), foffs, ws) ==
        if ok then Accepted(State(), rest) else Rejected(State())
    {
      ghost var lp := lps[..];
      ok, rest := false, ws;
      if ws == [] {
        ok := true;
        return;
      }
      if ws[0] == While || ws[0] == Until {
        rest := ws[1..];
        if rest == [] || rest[0] == Empty
           || ies[iendx].state == ItefIf || lps[lpndx].state == LoopWhile || lps[lpndx].state == LoopUntil || foffs < 0
           || lpndx >= lps.Length - 1
        {
          LoopError();
          return;
        }
        var enable := CmdEnabled();
        lpndx := lpndx + 1;
        lps[lpndx] := LoopSlot(if ws[0] == While then LoopWhile else LoopUntil, enable, iendx, foffs);
        assert lps[..] == lp[lpndx := lps[lpndx]];
      } else if ws[0] == Do {
        rest := ws[1..];
        if lps[lpndx].state != LoopWhile && lps[lpndx].state != LoopUntil {
          LoopError();
          return;
        }
        lps[lpndx] := lps[lpndx].(state := LoopDo);
        assert lps[..] == lp[lpndx := lps[lpndx]];
      } else if ws[0] == Done {
        rest := ws[1..];
        if rest != [] || lps[lpndx].state != LoopDo || lpndx < 1 {
          LoopError();
          return;
        }
        if lps[lpndx].enable {
          pos := lps[lpndx].topoffs;
        } else {
          lps[lpndx] := lps[lpndx].(enable := true);
        }
        lps[lpndx] := lps[lpndx].(state := LoopNormal);
        assert lps[..] == lp[lpndx := lps[lpndx]];
        lpndx := lpndx - 1;
      } else if lps[lpndx].state == LoopWhile || lps[lpndx].state == LoopUntil {
        LoopError();
        return;
      }
      ok := true;
    }

    /** `nsh_itef`. */
    method Itef(ws: Words) returns (ok: bool, rest: Words)
      requires Valid()
      modifies this, ies
      ensures Valid() && HandleItef(old(State()), ws) == if ok then Accepted(State(), rest) else Rejected(State())
    {
      ghost var ie := ies[..];
      ok, rest := false, ws;
      if ws == [] {
        ok := true;
        return;
      }
      if ws[0] == If {
        rest := ws[1..];
        var inverted := false;
        if rest != [] && rest[0] == Bang {
          inverted := true;
          rest := rest[1..];
        }
        if rest == [] || rest[0] == Empty || ies[iendx].state == ItefIf || iendx >= ies.Length - 1 {
          ItefError();
          return;
        }
        var enabled := CmdEnabled();
        iendx := iendx + 1;
        ies[iendx] := ItefSlot(ItefIf, false, !enabled, inverted);
        assert ies[..] == ie[iendx := ies[iendx]];
      } else if ws[0] == Then {
        rest := ws[1..];
        if ies[iendx].state != ItefIf {
          ItefError();
          return;
        }
        ies[iendx] := ies[iendx].(state := ItefThen);
        assert ies[..] == ie[iendx := ies[iendx]];
      } else if ws[0] == Else {
        rest := ws[1..];
        if ies[iendx].state != ItefThen {
          ItefError();
          return;
        }
        ies[iendx] := ies[iendx].(state := ItefElse);
        assert ies[..] == ie[iendx := ies[iendx]];
      } else if ws[0] == Fi {
        rest := ws[1..];
        if rest != [] || (ies[iendx].state != ItefThen && ies[iendx].state != ItefElse) || iendx < 1 {
          ItefError();
          return;
        }
        iendx := iendx - 1;
      } else if ies[iendx].state == ItefIf {
        ItefError();
        return;
      }
      ok := true;
    }

    /** `cmd_break`. */
    method Break()
      requires Valid() && lps[lpndx].iendx < ies.Length
      modifies this, lps
      ensures Valid() && State() == M.Break(old(State()))
    {
      ghost var lp := lps[..];
      if lps[lpndx].state == LoopDo {
        iendx := lps[lpndx].iendx;
        lps[lpndx] := lps[lpndx].(enable := false);
        assert lps[..] == lp[lpndx := lps[lpndx]];
      }
    }

    /** `nsh_parse_command` with the command's result: what it returns and what was executed. */
    method Command(ws: Words, foffs: nat, failed: bool) returns (ret: bool, executed: bool, argv: Words)
      requires Valid() && State().Inv()
      modifies this, lps, ies
      ensures Valid()
      ensures Performed(State(), ret, executed, argv) == Perform(old(State()), foffs, ws, failed)
    {
      hide HandleLoop; hide HandleItef; hide M.SaveResult; hide M.Break;
      executed, argv := false, [];
      ScriptInvariant.ParseKeepsInv(State(), foffs, ws);
      ScriptInvariant.BreakKeepsInv(ParseCommand(State(), foffs, ws).p);
      var ok, rest := Loop(foffs, ws);
      if !ok {
        ret := SaveResult(true);
        return;
      }
      ok, rest := Itef(rest);
      if !ok {
        ret := SaveResult(true);
        return;
      }
      var enabled := CmdEnabled();
      if rest == [] || !enabled {
        ret := false;
        return;
      }
      if rest == [BreakName] {
        Break();
        ret := SaveResult(false);
      } else {
        executed, argv := true, rest;
        ret := SaveResult(failed);
      }
    }

    /**
      The command loop of `nsh_script`, cut after `budget` commands.  There is a result for
      every command, so the run never waits.
    */
    method Run(s: Script, results: seq<bool>, budget: nat)
      returns (left: seq<bool>, trace: seq<Event>, ret: bool, eof: bool)
      requires Valid() && State().Inv() && |results| >= budget
      modifies this, lps, ies
      ensures Valid()
      ensures Config(State(), left, trace, ret, eof) == Steps(s, Config(old(State()), results, [], true, false), budget)
    {
      hide Step;
      left, trace, ret, eof := results, [], true, false;
      ghost var start := Config(State(), results, [], true, false);
      for n := 0 to budget
        invariant Valid() && State().Inv() && |left| >= budget - n
        invariant Config(State(), left, trace, ret, eof) == Steps(s, start, n)
      {
        ghost var c := Config(State(), left, trace, ret, eof);
        ScriptInvariant.StepKeepsInv(s, c);
        StepsAdd(s, start, n, 1);
        left, trace, ret, eof := OneCommand(s, left, trace, ret, eof);
      }
    }

    method OneCommand(s: Script, results: seq<bool>, trace: seq<Event>, ret: bool, eof: bool)
      returns (results': seq<bool>, trace': seq<Event>, ret': bool, eof': bool)
      requires Valid() && State().Inv() && results != []
      modifies this, lps, ies
      ensures Valid() && |results'| >= |results| - 1
      ensures Config(State(), results', trace', ret', eof') == Step(s, Config(old(State()), results, trace, ret, eof))
    {
      hide Perform; hide Asks;
      results', trace', ret', eof' := results, trace, ret, eof;
      if eof {
        return;
      }
      if pos >= |s.cmds| {
        eof' := true;
        return;
      }
      var foffs := pos;
      pos := pos + 1;
      var executed, argv;
      ret', executed, argv := Command(s.cmds[foffs], foffs, results[0]);
      if executed {
        results', trace' := results[1..], trace + [Event(foffs, argv, results[0])];
      }
      if ret' {
        if s.ignore {
          pos := s.NextLine(foffs);
        } else {
          eof' := true;
        }
      }
    }
  }
}
