/**
  The line machine behind NSH scripts: `nsh_loop`, `nsh_itef`, `nsh_saveresult`,
  `nsh_cmdenabled`, `cmd_break` and the command loop of `nsh_parse`/`nsh_script`.

  A script is a sequence of simple commands, each already split into words.  A layout
  says which commands start a new line of the file and which ones follow a semicolon.
  File offsets are command indices.  Whether a command fails is decided outside the
  parser, so a run is given a finite list of results and waits when the list is empty.
*/
module ScriptMachine {

  /** A word of a command; the strings that the parser compares against have their own names. */
  datatype Word =
    | While | Until | Do | Done | If | Then | Else | Fi
    | Bang | BreakName | Empty
    | Text(text: string)

  type Words = seq<Word>

  datatype LoopState = LoopNormal | LoopWhile | LoopUntil | LoopDo
  datatype ItefState = ItefNormal | ItefIf | ItefThen | ItefElse

  datatype LoopSlot = LoopSlot(state: LoopState, enable: bool, iendx: nat, topoffs: nat)
  datatype ItefSlot = ItefSlot(state: ItefState, ifcond: bool, disabled: bool, inverted: bool)

  /** The part of `struct nsh_parser_s` that scripts use; `pos` is the position of np_stream. */
  datatype Parser = Parser(
    lp: seq<LoopSlot>, lpndx: nat,
    ie: seq<ItefSlot>, iendx: nat,
    fail: bool, pos: nat)
  {
    predicate InRange() {
      lpndx < |lp| && iendx < |ie|
    }

    /**
      What holds after every command, however ill-formed the script is: both indices are
      in range, slot 0 of either stack is NORMAL, every loop slot strictly between slot 0
      and the top is DO, and a loop at the top is never NORMAL.
    */
    predicate Inv() {
      && InRange()
      && lp[0].state == LoopNormal && ie[0].state == ItefNormal
      && (forall i :: 0 < i < lpndx ==> lp[i].state == LoopDo)
      && (lpndx > 0 ==> lp[lpndx].state != LoopNormal)
      && (forall i :: 0 <= i < |lp| ==> lp[i].iendx < |ie|)
    }

    function LoopTop(): LoopSlot
      requires InRange()
    {
      lp[lpndx]
    }

    function ItefTop(): ItefSlot
      requires InRange()
    {
      ie[iendx]
    }

    /** A loop keyword was read and its test has to come next. */
    predicate AwaitsDo()
      requires InRange()
    {
      LoopTop().state == LoopWhile || LoopTop().state == LoopUntil
    }

    predicate AwaitsThen()
      requires InRange()
    {
      ItefTop().state == ItefIf
    }

    predicate LoopEnabled()
      requires InRange()
    {
      LoopTop().state == LoopDo ==> LoopTop().enable
    }

    predicate ItefEnabled()
      requires InRange()
    {
      && !ItefTop().disabled
      && (ItefTop().state == ItefThen ==> !ItefTop().ifcond)
      && (ItefTop().state == ItefElse ==> ItefTop().ifcond)
    }

    predicate CmdEnabled()
      requires InRange()
    {
      LoopEnabled() && ItefEnabled()
    }

    function WithLoopTop(slot: LoopSlot): (q: Parser)
      requires InRange()
    {
      this.(lp := lp[lpndx := slot])
    }

    function WithItefTop(slot: ItefSlot): (q: Parser)
      requires InRange()
    {
      this.(ie := ie[iendx := slot])
    }

    /** The error exit of `nsh_loop`. */
    function ResetLoops(): (q: Parser)
      requires InRange()
      ensures q.InRange()
    {
      this.(lpndx := 0, lp := lp[0 := LoopSlot(LoopNormal, true, lp[0].iendx, 0)])
    }

    /** The error exit of `nsh_itef`. */
    function ResetItefs(): (q: Parser)
      requires InRange()
      ensures q.InRange()
    {
      this.(iendx := 0, ie := ie[0 := ItefSlot(ItefNormal, false, false, false)])
    }
  }

  /** `nsh_saveresult`: the new state and whether ERROR is returned. */
  function SaveResult(p: Parser, failed: bool): (r: (Parser, bool))
    requires p.InRange()
    ensures r.0.InRange()
  {
    if p.LoopTop().state == LoopWhile then
      (p.WithLoopTop(p.LoopTop().(enable := !failed)).(fail := false), false)
    else if p.LoopTop().state == LoopUntil then
      (p.WithLoopTop(p.LoopTop().(enable := failed)).(fail := false), false)
    else if p.ItefTop().state == ItefIf then
      (p.WithItefTop(p.ItefTop().(ifcond := p.ItefTop().inverted != failed)).(fail := false), false)
    else
      (p.(fail := failed), failed)
  }

  /** Outcome of one of the two keyword handlers: the words left to process, or an error. */
  datatype Handled = Accepted(p: Parser, words: Words) | Rejected(p: Parser)

  /** `nsh_loop`; `foffs` is negative when there is no script file or `ftell` failed. */
  function HandleLoop(p: Parser, foffs: int, ws: Words): (h: Handled)
    requires p.InRange()
    ensures h.p.InRange()
  {
    if ws == [] then Accepted(p, ws) else
    var rest := ws[1..];
    match ws[0]
    case While =>
      PushLoop(p, false, foffs, rest)
    case Until =>
      PushLoop(p, true, foffs, rest)
    case Do =>
      if !p.AwaitsDo() then Rejected(p.ResetLoops())
      else Accepted(p.WithLoopTop(p.LoopTop().(state := LoopDo)), rest)
    case Done =>
      if rest != [] then Rejected(p.ResetLoops())
      else if p.LoopTop().state != LoopDo then Rejected(p.ResetLoops())
      else if p.lpndx < 1 then Rejected(p.ResetLoops())
      else
        var closed := LoopSlot(LoopNormal, true, p.LoopTop().iendx, p.LoopTop().topoffs);
        var q := p.WithLoopTop(closed).(lpndx := p.lpndx - 1);
        Accepted(if p.LoopTop().enable then q.(pos := p.LoopTop().topoffs) else q, [])
    case _ =>
      if p.AwaitsDo() then Rejected(p.ResetLoops()) else Accepted(p, ws)
  }

  /** The `while`/`until` branch of `nsh_loop`. */
  function PushLoop(p: Parser, until: bool, foffs: int, rest: Words): (h: Handled)
    requires p.InRange()
    ensures h.p.InRange()
  {
    if rest == [] || rest[0] == Empty then Rejected(p.ResetLoops())
    else if p.AwaitsThen() || p.AwaitsDo() || foffs < 0 then Rejected(p.ResetLoops())
    else if p.lpndx >= |p.lp| - 1 then Rejected(p.ResetLoops())
    else
      var slot := LoopSlot(if until then LoopUntil else LoopWhile, p.CmdEnabled(), p.iendx, foffs);
      Accepted(p.(lpndx := p.lpndx + 1, lp := p.lp[p.lpndx + 1 := slot]), rest)
  }

  /** `nsh_itef`. */
  function HandleItef(p: Parser, ws: Words): (h: Handled)
    requires p.InRange()
    ensures h.p.InRange()
  {
    if ws == [] then Accepted(p, ws) else
    var rest := ws[1..];
    match ws[0]
    case If =>
      if rest == [] || rest[0] == Empty then Rejected(p.ResetItefs())
      else if rest[0] == Bang then PushItef(p, true, rest[1..])
      else PushItef(p, false, rest)
    case Then =>
      if !p.AwaitsThen() then Rejected(p.ResetItefs())
      else Accepted(p.WithItefTop(p.ItefTop().(state := ItefThen)), rest)
    case Else =>
      if p.ItefTop().state != ItefThen then Rejected(p.ResetItefs())
      else Accepted(p.WithItefTop(p.ItefTop().(state := ItefElse)), rest)
    case Fi =>
      if rest != [] then Rejected(p.ResetItefs())
      else if p.ItefTop().state != ItefThen && p.ItefTop().state != ItefElse then Rejected(p.ResetItefs())
      else if p.iendx < 1 then Rejected(p.ResetItefs())
      else Accepted(p.(iendx := p.iendx - 1), [])
    case _ =>
      if p.AwaitsThen() then Rejected(p.ResetItefs()) else Accepted(p, ws)
  }

  /** The `if` branch of `nsh_itef`, after an optional `!`. */
  function PushItef(p: Parser, inverted: bool, test: Words): (h: Handled)
    requires p.InRange()
    ensures h.p.InRange()
  {
    if test == [] || test[0] == Empty then Rejected(p.ResetItefs())
    else if p.AwaitsThen() then Rejected(p.ResetItefs())
    else if p.iendx >= |p.ie| - 1 then Rejected(p.ResetItefs())
    else
      var slot := ItefSlot(ItefIf, false, !p.CmdEnabled(), inverted);
      Accepted(p.(iendx := p.iendx + 1, ie := p.ie[p.iendx + 1 := slot]), test)
  }

  /** What `nsh_parse_command` decides before anything is executed. */
  datatype Parsed = Finished(p: Parser, ret: bool) | Execute(p: Parser, argv: Words)

  function ParseCommand(p: Parser, foffs: int, ws: Words): (r: Parsed)
    requires p.InRange()
    ensures r.p.InRange()
    ensures r.Execute? ==> r.argv != []
  {
    match HandleLoop(p, foffs, ws)
    case Rejected(p1) =>
      var (q, ret) := SaveResult(p1, true);
      Finished(q, ret)
    case Accepted(p1, ws1) =>
      match HandleItef(p1, ws1)
      case Rejected(p2) =>
        var (q, ret) := SaveResult(p2, true);
        Finished(q, ret)
      case Accepted(p2, ws2) =>
        if ws2 == [] || !p2.CmdEnabled() then Finished(p2, false) else Execute(p2, ws2)
  }

  /** `cmd_break`. */
  function Break(p: Parser): (q: Parser)
    requires p.InRange()
  {
    if p.LoopTop().state == LoopDo then
      p.WithLoopTop(p.LoopTop().(enable := false)).(iendx := p.LoopTop().iendx)
    else p
  }

  /** The parser wants a command to be run outside of it. */
  predicate Asks(p: Parser, foffs: int, ws: Words)
    requires p.InRange()
  {
    var r := ParseCommand(p, foffs, ws);
    r.Execute? && r.argv != [BreakName]
  }

  /** A command together with its result: the new state, ERROR or not, and what was executed. */
  datatype Performed = Performed(p: Parser, ret: bool, executed: bool, argv: Words)

  function Perform(p: Parser, foffs: int, ws: Words, failed: bool): (r: Performed)
    requires p.InRange()
    ensures r.p.InRange() && (r.executed <==> Asks(p, foffs, ws))
  {
    match ParseCommand(p, foffs, ws)
    case Finished(q, ret) => Performed(q, ret, false, [])
    case Execute(q, argv) =>
      if argv != [BreakName] then
        var (q', ret) := SaveResult(q, failed);
        Performed(q', ret, true, argv)
      else if Break(q).InRange() then
        var (q', ret) := SaveResult(Break(q), false);
        Performed(q', ret, false, [])
      else
        // an index out of range is undefined in the source; `Inv` excludes it
        Performed(q, false, false, [])
  }

  /** A command that was executed: where it stands in the script, its words and its result. */
  datatype Event = Event(line: nat, argv: Words, failed: bool)

  /** `starts` holds the commands that are the first on their line; `ignore` is NSH_PFLAG_IGNORE. */
  datatype Script = Script(cmds: seq<Words>, starts: set<nat>, ignore: bool)
  {
    /** First command of the next line after command `k`. */
    function NextLine(k: nat): (n: nat)
      requires k < |cmds|
      ensures k < n <= |cmds|
      ensures n < |cmds| ==> n in starts
      ensures forall i :: k < i < n ==> i !in starts
      decreases |cmds| - k
    {
      if k + 1 == |cmds| || k + 1 in starts then k + 1 else NextLine(k + 1)
    }
  }

  /** `ret` is the value `nsh_script` would return now (true for ERROR). */
  datatype Config = Config(p: Parser, results: seq<bool>, trace: seq<Event>, ret: bool, halted: bool)

  /** After a command returned: `nsh_script` stops on an error unless NSH_PFLAG_IGNORE is set. */
  function Return(s: Script, c: Config, p: Parser, results: seq<bool>, trace: seq<Event>, ret: bool): (d: Config)
    requires c.p.pos < |s.cmds|
    requires p.InRange()
    ensures d.p.InRange()
  {
    if ret && s.ignore then Config(p.(pos := s.NextLine(c.p.pos)), results, trace, ret, false)
    else Config(p, results, trace, ret, ret)
  }

  /** One command of the script. */
  function Step(s: Script, c: Config): (d: Config)
    requires c.p.InRange()
    ensures d.p.InRange()
  {
    if c.halted then c
    else if c.p.pos >= |s.cmds| then c.(halted := true)
    else
      var p, at, ws := c.p.(pos := c.p.pos + 1), c.p.pos, s.cmds[c.p.pos];
      if c.results == [] then
        if Asks(p, at, ws) then c else
        var r := Perform(p, at, ws, false);
        Return(s, c, r.p, [], c.trace, r.ret)
      else
        var r := Perform(p, at, ws, c.results[0]);
        if r.executed then Return(s, c, r.p, c.results[1..], c.trace + [Event(at, r.argv, c.results[0])], r.ret)
        else Return(s, c, r.p, c.results, c.trace, r.ret)
  }

  function Steps(s: Script, c: Config, n: nat): (d: Config)
    requires c.p.InRange()
    ensures d.p.InRange()
    decreases n
  {
    if n == 0 then c else Steps(s, Step(s, c), n - 1)
  }

  ghost predicate Reaches(s: Script, c: Config, d: Config)
    requires c.p.InRange()
  {
    exists n: nat :: Steps(s, c, n) == d
  }

  lemma {:induction false} StepsAdd(s: Script, c: Config, m: nat, n: nat)
    requires c.p.InRange()
    ensures Steps(s, Steps(s, c, m), n) == Steps(s, c, m + n)
    decreases m
  {
    hide Step;
    if m > 0 {
      StepsAdd(s, Step(s, c), m - 1, n);
    }
  }

  lemma ReachesRefl(s: Script, c: Config)
    requires c.p.InRange()
    ensures Reaches(s, c, c)
  {
    assert Steps(s, c, 0) == c;
  }

  lemma ReachesStep(s: Script, c: Config)
    requires c.p.InRange()
    ensures Reaches(s, c, Step(s, c))
  {
    assert Steps(s, c, 1) == Steps(s, Step(s, c), 0) == Step(s, c);
  }

  lemma ReachesTrans(s: Script, c: Config, d: Config, e: Config)
    requires c.p.InRange()
    requires Reaches(s, c, d) && d.p.InRange() && Reaches(s, d, e)
    ensures Reaches(s, c, e)
  {
    var m: nat :| Steps(s, c, m) == d;
    var n: nat :| Steps(s, d, n) == e;
    StepsAdd(s, c, m, n);
  }
}
