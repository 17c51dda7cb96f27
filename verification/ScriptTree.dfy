/**
  What an NSH script means: a syntax tree for well-nested scripts, how such a tree is
  laid out as commands, and a recursive interpreter that knows nothing about stacks or
  file positions other than the place of each command in the file.
*/
module ScriptTree {
  import opened ScriptMachine

  datatype Block = Nil | Cons(head: Stmt, tail: Block)

  datatype Stmt =
    | Blank
    | Command(argv: Words)
    | BreakLoop
    | Branch(inverted: bool, test: Words, thn: Block, hasElse: bool, els: Block)
    | Loop(until: bool, test: Words, body: Block)

  /** A word that may start a simple command. */
  predicate PlainWord(w: Word) {
    w.Text?
  }

  predicate PlainCommand(ws: Words) {
    ws != [] && PlainWord(ws[0])
  }

  predicate WellFormed(b: Block) {
    match b
    case Nil => true
    case Cons(s, rest) => WellFormedStmt(s) && WellFormed(rest)
  }

  predicate WellFormedStmt(s: Stmt) {
    match s
    case Blank => true
    case Command(argv) => PlainCommand(argv)
    case BreakLoop => true
    case Branch(_, test, thn, hasElse, els) =>
      PlainCommand(test) && WellFormed(thn) && WellFormed(els) && (!hasElse ==> els == Nil)
    case Loop(_, test, body) => PlainCommand(test) && WellFormed(body)
  }

  /** The commands of a tree, in file order. */
  function Lines(b: Block): (r: seq<Words>)
    decreases b, 0
  {
    match b
    case Nil => []
    case Cons(s, rest) => LinesOf(s) + Lines(rest)
  }

  function IfLine(inverted: bool, test: Words): (ws: Words) {
    [If] + (if inverted then [Bang] else []) + test
  }

  function LoopLine(until: bool, test: Words): (ws: Words) {
    [if until then Until else While] + test
  }

  function ElsePart(hasElse: bool, els: Block): (r: seq<Words>)
    decreases els, 1
  {
    if hasElse then [[Else]] + Lines(els) else []
  }

  function LinesOf(s: Stmt): (r: seq<Words>)
    ensures |r| > 0
    decreases s, 0
  {
    match s
    case Blank => [[]]
    case Command(argv) => [argv]
    case BreakLoop => [[BreakName]]
    case Branch(inverted, test, thn, hasElse, els) =>
      [IfLine(inverted, test)] + ([[Then]] + (Lines(thn) + (ElsePart(hasElse, els) + [[Fi]])))
    case Loop(until, test, body) =>
      [LoopLine(until, test)] + ([[Do]] + (Lines(body) + [[Done]]))
  }

  function Max(a: nat, b: nat): nat {
    if a < b then b else a
  }

  function LoopDepth(b: Block): nat {
    match b
    case Nil => 0
    case Cons(s, rest) => Max(LoopDepthOf(s), LoopDepth(rest))
  }

  function LoopDepthOf(s: Stmt): nat {
    match s
    case Branch(_, _, thn, _, els) => Max(LoopDepth(thn), LoopDepth(els))
    case Loop(_, _, body) => 1 + LoopDepth(body)
    case _ => 0
  }

  function BranchDepth(b: Block): nat {
    match b
    case Nil => 0
    case Cons(s, rest) => Max(BranchDepthOf(s), BranchDepth(rest))
  }

  function BranchDepthOf(s: Stmt): nat {
    match s
    case Branch(_, _, thn, _, els) => 1 + Max(BranchDepth(thn), BranchDepth(els))
    case Loop(_, _, body) => BranchDepth(body)
    case _ => 0
  }

  /** No statement of the block itself is a loop (loops inside its branches do not matter). */
  predicate NoDirectLoop(b: Block) {
    match b
    case Nil => true
    case Cons(s, rest) => !s.Loop? && NoDirectLoop(rest)
  }

  /** No statement of the block itself is a `break`. */
  predicate NoDirectBreak(b: Block) {
    match b
    case Nil => true
    case Cons(s, rest) => !s.BreakLoop? && NoDirectBreak(rest)
  }

  /**
    What the machine can cope with: no loop is a statement of another loop's own body, and no
    `break` stands below an `if` of its own loop.  What follows a `break` of a loop in the same
    body is never run and may hold anything but loops; `inLoop` says that a loop is around.
  */
  predicate Regular(b: Block, inLoop: bool) {
    match b
    case Nil => true
    case Cons(s, rest) => (s.BreakLoop? && inLoop) || (RegularStmt(s, inLoop) && Regular(rest, inLoop))
  }

  predicate RegularStmt(s: Stmt, inLoop: bool) {
    match s
    case Branch(_, _, thn, _, els) =>
      && (inLoop ==> NoDirectBreak(thn) && NoDirectBreak(els))
      && Regular(thn, inLoop) && Regular(els, inLoop)
    case Loop(_, _, body) => NoDirectLoop(body) && Regular(body, true)
    case _ => true
  }

  /** How an interpretation ended: all done, left by `break`, stopped by a failed command, or out of results. */
  datatype Ending = Completed | Broken | Aborted | Waiting

  /** `fail` is the value of `$?`, `ret` what the script would return. */
  datatype Meaning = Meaning(events: seq<Event>, rest: seq<bool>, end: Ending, fail: bool, ret: bool)
  {
    /** This meaning after the given events. */
    function After(es: seq<Event>): Meaning {
      this.(events := es + events)
    }
  }

  /** Whether failures are ignored, and whether there is a loop for `break` to leave. */
  datatype Mode = Mode(ignore: bool, inLoop: bool)

  /** The meaning of a block whose first command stands at `at`. */
  function Interpret(b: Block, at: nat, fail: bool, ret: bool, mode: Mode, rs: seq<bool>): (m: Meaning)
    ensures |m.rest| <= |rs|
    ensures m.end == Waiting ==> m.rest == []
    decreases |rs|, b, 0
  {
    match b
    case Nil => Meaning([], rs, Completed, fail, ret)
    case Cons(s, tail) =>
      var m := InterpretStmt(s, at, fail, ret, mode, rs);
      if m.end != Completed then m
      else Interpret(tail, at + |LinesOf(s)|, m.fail, m.ret, mode, m.rest).After(m.events)
  }

  function InterpretStmt(s: Stmt, at: nat, fail: bool, ret: bool, mode: Mode, rs: seq<bool>): (m: Meaning)
    ensures |m.rest| <= |rs|
    ensures m.end == Waiting ==> m.rest == []
    decreases |rs|, s, 1
  {
    if s.Blank? then Meaning([], rs, Completed, fail, false)
    else if s.BreakLoop? then Meaning([], rs, if mode.inLoop then Broken else Completed, false, false)
    else if rs == [] then Meaning([], [], Waiting, fail, ret)
    else
      match s
      case Command(argv) =>
        Meaning([Event(at, argv, rs[0])], rs[1..], if rs[0] && !mode.ignore then Aborted else Completed, rs[0], rs[0])
      case Branch(inverted, test, thn, _, els) =>
        var m := if inverted == rs[0] then Interpret(thn, at + 2, false, false, mode, rs[1..])
                 else Interpret(els, at + 3 + |Lines(thn)|, false, false, mode, rs[1..]);
        m.After([Event(at, test, rs[0])]).(ret := m.end != Completed && m.ret)
      case Loop(until, test, body) =>
        var test := [Event(at, test, rs[0])];
        if until != rs[0] then Meaning(test, rs[1..], Completed, false, false)
        else
          var m := Interpret(body, at + 2, false, false, mode.(inLoop := true), rs[1..]);
          if m.end == Broken then m.After(test).(end := Completed, ret := false)
          else if m.end != Completed then m.After(test)
          else InterpretStmt(s, at, m.fail, false, mode, m.rest).After(test + m.events)
  }

  /**
    A failing command ends its line, so that nothing is dropped with the rest of the line when
    failures are ignored.
  */
  predicate CommandsEndLines(s: Script) {
    forall i: nat :: i < |s.cmds| && PlainCommand(s.cmds[i]) ==> i + 1 == |s.cmds| || i + 1 in s.starts
  }
}
