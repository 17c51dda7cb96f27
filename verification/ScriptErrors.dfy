/**
  Keywords out of place.  Which commands either handler refuses, in every reachable state, and
  exactly when the refusal stops a script that stops at failures.
*/
module ScriptErrors {
  import opened ScriptMachine
  import opened ScriptRefinement
  import opened ScriptInvariant
  import opened ScriptJoined

  predicate NoTest(ws: Words) {
    ws == [] || ws[0] == Empty
  }

  /** The command stands where the loop keywords do not allow it. */
  predicate LoopMisuse(p: Parser, ws: Words)
    requires p.InRange()
  {
    ws != [] &&
    if ws[0] == While || ws[0] == Until then
      NoTest(ws[1..]) || p.AwaitsThen() || p.AwaitsDo() || p.lpndx + 1 == |p.lp|
    else if ws[0] == Done then |ws| > 1 || p.lpndx == 0 || p.AwaitsDo()
    else p.AwaitsDo() != (ws[0] == Do)
  }

  /** The test behind `if` and an exclamation mark. */
  function TestOf(ws: Words): (test: Words) {
    if |ws| > 1 && ws[1] == Bang then ws[2..] else if ws == [] then [] else ws[1..]
  }

  /** The command stands where the if keywords do not allow it. */
  predicate ItefMisuse(p: Parser, ws: Words)
    requires p.InRange()
  {
    ws != [] &&
    if ws[0] == If then NoTest(TestOf(ws)) || p.AwaitsThen() || p.iendx + 1 == |p.ie|
    else if ws[0] == Fi then |ws| > 1 || p.iendx == 0 || p.ItefTop().state !in {ItefThen, ItefElse}
    else if ws[0] == Else then p.ItefTop().state != ItefThen
    else p.AwaitsThen() != (ws[0] == Then)
  }

  lemma LoopRefusedExactly(p: Parser, foffs: nat, ws: Words)
    requires p.Inv()
    ensures HandleLoop(p, foffs, ws).Rejected? <==> LoopMisuse(p, ws)
    ensures HandleLoop(p, foffs, ws).Rejected? ==> HandleLoop(p, foffs, ws).p == p.ResetLoops()
  {
    hide Parser.CmdEnabled;
  }

  lemma ItefRefusedExactly(p: Parser, ws: Words)
    requires p.Inv()
    ensures HandleItef(p, ws).Rejected? <==> ItefMisuse(p, ws)
    ensures HandleItef(p, ws).Rejected? ==> HandleItef(p, ws).p == p.ResetItefs()
  {
    hide Parser.CmdEnabled;
  }

  /** Neither stack has anything open. */
  predicate LoopsClear(p: Parser) {
    p.InRange() && p.lpndx == 0 && p.lp[0] == LoopSlot(LoopNormal, true, p.lp[0].iendx, 0)
  }

  predicate ItefsClear(p: Parser) {
    p.InRange() && p.iendx == 0 && p.ie[0] == ItefSlot(ItefNormal, false, false, false)
  }

  /** A command of the script that nothing has gone wrong before. */
  predicate Reads(s: Script, c: Config, ws: Words) {
    c.p.Inv() && !c.halted && !s.ignore && c.p.pos < |s.cmds| && s.cmds[c.p.pos] == ws
  }

  lemma Refused(s: Script, c: Config, ws: Words)
    requires Reads(s, c, ws) && ParseCommand(c.p.(pos := c.p.pos + 1), c.p.pos, ws).Finished?
    ensures
      var r := ParseCommand(c.p.(pos := c.p.pos + 1), c.p.pos, ws);
      Step(s, c) == Config(r.p, c.results, c.trace, r.ret, r.ret)
  {
    hide ParseCommand; hide SaveResult; hide Parser.Inv;
  }

  /** What is left of a command when the loop keywords have been taken from it. */
  function Left(ws: Words): (rest: Words) {
    if ws == [] || ws[0] == Done then []
    else if ws[0] == While || ws[0] == Until || ws[0] == Do then ws[1..]
    else ws
  }

  lemma LoopPasses(p: Parser, foffs: nat, ws: Words)
    requires p.InRange() && ws != [] && ws[0] != Done && HandleLoop(p, foffs, ws).Accepted?
    ensures
      var h := HandleLoop(p, foffs, ws);
      && h.words == Left(ws) && h.p.ie == p.ie && h.p.iendx == p.iendx
      && (ws[0] == While ==> h.p.LoopTop().state == LoopWhile && h.p.lpndx == p.lpndx + 1)
      && (ws[0] == Until ==> h.p.LoopTop().state == LoopUntil && h.p.lpndx == p.lpndx + 1)
      && (ws[0] != While && ws[0] != Until ==> !h.p.AwaitsDo())
  {
    hide Parser.CmdEnabled;
  }

  /**
    A loop keyword out of place runs nothing and closes all loops.  It stops the script if and only
    if no `if` awaits its `then`; otherwise it is taken for the failure of the test of that `if`.
  */
  lemma LoopErrorStopsExactly(s: Script, c: Config, ws: Words)
    requires Reads(s, c, ws) && LoopMisuse(c.p, ws)
    ensures
      var d := Step(s, c);
      && d.trace == c.trace && d.results == c.results && d.p.pos == c.p.pos + 1
      && LoopsClear(d.p) && d.p.iendx == c.p.iendx
      && (d.halted <==> !c.p.AwaitsThen()) && (d.ret <==> d.halted) && (d.p.fail <==> d.halted)
      && d.p.ie == if c.p.AwaitsThen() then c.p.ie[c.p.iendx := c.p.ItefTop().(ifcond := !c.p.ItefTop().inverted)]
                   else c.p.ie
  {
    hide HandleLoop; hide HandleItef; hide Step;
    var p := c.p.(pos := c.p.pos + 1);
    LoopRefusedExactly(p, c.p.pos, ws);
    Refused(s, c, ws);
  }

  /**
    An if keyword out of place runs nothing and closes every `if`.  It stops the script if and only
    if it does not stand behind `while` or `until`, where it is taken for the failure of the test.
  */
  lemma ItefErrorStopsExactly(s: Script, c: Config, ws: Words)
    requires Reads(s, c, ws) && ws != [] && !LoopMisuse(c.p, ws) && ItefMisuse(c.p, Left(ws))
    ensures
      var d := Step(s, c);
      && d.trace == c.trace && d.results == c.results && ItefsClear(d.p)
      && (d.halted <==> ws[0] != While && ws[0] != Until) && (d.ret <==> d.halted) && (d.p.fail <==> d.halted)
      && (d.halted || (d.p.AwaitsDo() && d.p.lpndx == c.p.lpndx + 1 && (d.p.LoopTop().enable <==> ws[0] == Until)))
  {
    hide HandleLoop; hide HandleItef; hide Step; hide Parser.CmdEnabled;
    var p := c.p.(pos := c.p.pos + 1);
    LoopRefusedExactly(p, c.p.pos, ws);
    LoopPasses(p, c.p.pos, ws);
    LoopKeepsInv(p, c.p.pos, ws);
    var q := HandleLoop(p, c.p.pos, ws).p;
    ItefRefusedExactly(q, Left(ws));
    Refused(s, c, ws);
  }

  /** The script `if a`, `do`, `then`, `b`, `fi`. */
  function Swallowing(a: string, b: string): (s: Script) {
    Script([[If, Text(a)], [Do], [Then], [Text(b)], [Fi]], {0, 1, 2, 3, 4}, false)
  }

  /** It runs to its end without an error, and does not run `b` although `a` succeeds. */
  lemma ErrorSwallowed(p: Parser, a: string, b: string, rs: seq<bool>)
    requires p.Inv() && LoopsClear(p) && ItefsClear(p) && |p.ie| > 1 && p.pos == 0 && rs != [] && !rs[0]
    ensures
      var s := Swallowing(a, b);
      var f := Steps(s, Config(p, rs, [], false, false), 6);
      f.halted && !f.ret && !f.p.fail && f.trace == [Event(0, [Text(a)], false)]
  {
    hide Steps; hide Step;
    var s, c0 := Swallowing(a, b), Config(p, rs, [], false, false);
    StepIf(s, c0, false, [Text(a)]);
    var c1 := Step(s, c0);
    LoopErrorStopsExactly(s, c1, [Do]);
    SwallowingEnds(Step(s, c1), a, b);
    SixSteps(s, c0);
  }

  lemma SwallowingEnds(c: Config, a: string, b: string)
    requires LoopsClear(c.p) && !c.halted && c.p.pos == 2 && c.p.iendx == 1
    requires c.p.ItefTop() == ItefSlot(ItefIf, true, false, false)
    ensures
      var s := Swallowing(a, b);
      var f := Step(s, Step(s, Step(s, Step(s, c))));
      f.halted && !f.ret && f.p.fail == c.p.fail && f.trace == c.trace
  {
    hide Step;
    var s := Swallowing(a, b);
    StepThen(s, c);
    var d := Step(s, c);
    StepSkips(s, d);
    StepFi(s, Step(s, d));
    StepEnd(s, Step(s, Step(s, d)));
  }

  lemma StepEnd(s: Script, c: Config)
    requires c.p.InRange() && !c.halted && c.p.pos == |s.cmds|
    ensures Step(s, c) == c.(halted := true)
  {
  }

  lemma SixSteps(s: Script, c: Config)
    requires c.p.InRange()
    ensures Steps(s, c, 6) == Step(s, Step(s, Step(s, Step(s, Step(s, Step(s, c))))))
  {
    hide Step;
    var c1 := Step(s, c);
    var c2 := Step(s, c1);
    var c3 := Step(s, c2);
    var c4 := Step(s, c3);
    assert Steps(s, c4, 2) == Step(s, Step(s, c4));
    assert Steps(s, c2, 4) == Steps(s, c3, 3) == Steps(s, c4, 2);
    assert Steps(s, c, 6) == Steps(s, c1, 5) == Steps(s, c2, 4);
  }
}
