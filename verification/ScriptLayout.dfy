/**
  A script with commands on the lines of `then`, `else` and `do` means what the tree of the
  split script says.
*/
module ScriptLayout {
  import opened ScriptMachine
  import opened ScriptTree
  import opened ScriptRefinement
  import opened ScriptInvariant
  import opened ScriptShort
  import opened ScriptJoined
  import opened ScriptSplit

  // ----- The renumbered run -----

  function MovedEvent(cmds: seq<Words>, e: Event): (r: Event) {
    e.(line := Place(cmds, e.line) + if JointAt(cmds, e.line) then 1 else 0)
  }

  function MovedTrace(cmds: seq<Words>, trace: seq<Event>): (r: seq<Event>)
    ensures |r| == |trace| && forall i :: 0 <= i < |r| ==> r[i] == MovedEvent(cmds, trace[i])
  {
    seq(|trace|, i requires 0 <= i < |trace| => MovedEvent(cmds, trace[i]))
  }

  lemma TraceAppend(cmds: seq<Words>, trace: seq<Event>, e: Event)
    ensures MovedTrace(cmds, trace + [e]) == MovedTrace(cmds, trace) + [MovedEvent(cmds, e)]
  {
  }

  function MovedConfig(cmds: seq<Words>, c: Config): (d: Config) {
    Config(Moved(cmds, c.p), c.results, MovedTrace(cmds, c.trace), c.ret, c.halted)
  }

  lemma SlotInjective(cmds: seq<Words>, a: LoopSlot, b: LoopSlot)
    requires Slot(cmds, a) == Slot(cmds, b)
    ensures a == b
  {
    PlaceInjective(cmds, a.topoffs, b.topoffs);
  }

  lemma EventInjective(cmds: seq<Words>, a: Event, b: Event)
    requires MovedEvent(cmds, a) == MovedEvent(cmds, b)
    ensures a == b
  {
    if a.line < b.line {
      PlaceGrows(cmds, a.line, b.line);
    } else if b.line < a.line {
      PlaceGrows(cmds, b.line, a.line);
    }
  }

  lemma ParserInjective(cmds: seq<Words>, p: Parser, q: Parser)
    requires Moved(cmds, p) == Moved(cmds, q)
    ensures p == q
  {
    PlaceInjective(cmds, p.pos, q.pos);
    forall i | 0 <= i < |p.lp| ensures p.lp[i] == q.lp[i] {
      assert SlotsOf(cmds, p.lp)[i] == SlotsOf(cmds, q.lp)[i];
      SlotInjective(cmds, p.lp[i], q.lp[i]);
    }
  }

  lemma ConfigInjective(cmds: seq<Words>, c: Config, d: Config)
    requires MovedConfig(cmds, c) == MovedConfig(cmds, d)
    ensures c == d
  {
    hide Moved; hide MovedEvent;
    ParserInjective(cmds, c.p, d.p);
    forall i | 0 <= i < |c.trace| ensures c.trace[i] == d.trace[i] {
      assert MovedTrace(cmds, c.trace)[i] == MovedTrace(cmds, d.trace)[i];
      EventInjective(cmds, c.trace[i], d.trace[i]);
    }
  }

  // ----- One command -----

  /** A step in terms of the command performed. */
  lemma StepUnfold(s: Script, c: Config)
    requires c.p.InRange() && !c.halted && c.p.pos < |s.cmds|
    ensures
      var k, p, failed := c.p.pos, c.p.(pos := c.p.pos + 1), c.results != [] && c.results[0];
      var r := Perform(p, k, s.cmds[k], failed);
      if c.results == [] && Asks(p, k, s.cmds[k]) then Step(s, c) == c
      else Step(s, c) == Return(s, c, r.p, if r.executed then c.results[1..] else c.results,
        if r.executed then c.trace + [Event(k, r.argv, failed)] else c.trace, r.ret)
  {
    hide Perform; hide Asks;
  }

  /** Returning from the command at `at`, which is one of the halves of command `k`. */
  lemma ReturnMoves(
    j: Script, c: Config, d: Config, p: Parser, results: seq<bool>, trace: seq<Event>, ret: bool)
    requires c.p.pos < |j.cmds| && p.InRange()
    requires
      var at := Place(j.cmds, c.p.pos);
      d.p.pos == at || (JointAt(j.cmds, c.p.pos) && d.p.pos == at + 1)
    ensures d.p.pos < |Split(j).cmds|
    ensures Return(Split(j), d, Moved(j.cmds, p), results, MovedTrace(j.cmds, trace), ret)
         == MovedConfig(j.cmds, Return(j, c, p, results, trace, ret))
  {
    hide Split; hide Place; hide Joint; hide MovedTrace; hide SlotsOf;
    SplitIs(j);
    NextLinePlace(j, c.p.pos);
  }

  lemma PlaceNext(cmds: seq<Words>, k: nat)
    ensures Place(cmds, k + 1) == Place(cmds, k) + if JointAt(cmds, k) then 2 else 1
  {
  }

  /** A line that is not joint. */
  lemma PlainStep(j: Script, c: Config)
    requires c.p.InRange() && !c.halted && c.p.pos < |j.cmds| && !Joint(j.cmds[c.p.pos])
    ensures Step(Split(j), MovedConfig(j.cmds, c)) == MovedConfig(j.cmds, Step(j, c))
  {
    hide Step; hide Perform; hide Asks; hide Split; hide Place; hide Joint; hide MovedTrace; hide SlotsOf; hide Return;
    var cmds, k, d := j.cmds, c.p.pos, MovedConfig(j.cmds, c);
    SplitIs(j);
    SplitAt(cmds, k);
    PlaceNext(cmds, k);
    var p, failed := c.p.(pos := k + 1), c.results != [] && c.results[0];
    assert Moved(cmds, p) == d.p.(pos := d.p.pos + 1);
    StepUnfold(j, c);
    StepUnfold(Split(j), d);
    PerformMoves(cmds, p, k, cmds[k], failed);
    if c.results != [] || !Asks(p, k, cmds[k]) {
      var r := Perform(p, k, cmds[k], failed);
      TraceAppend(cmds, c.trace, Event(k, r.argv, failed));
      ReturnMoves(j, c, d, r.p, if r.executed then c.results[1..] else c.results,
        if r.executed then c.trace + [Event(k, r.argv, failed)] else c.trace, r.ret);
    }
  }

  /** A keyword alone runs nothing, and neither looks at the position nor changes it. */
  lemma PosFree(p: Parser, pos: nat, foffs: nat, w: Word)
    requires p.InRange() && (w == Then || w == Else || w == Do)
    ensures
      var r := ParseCommand(p, foffs, [w]);
      && r.Finished? && r.p.pos == p.pos
      && ParseCommand(p.(pos := pos), foffs, [w]) == Finished(r.p.(pos := pos), r.ret)
  {
    hide HandleLoop; hide HandleItef; hide SaveResult; hide Parser.CmdEnabled;
    var h := HandleLoop(p, foffs, [w]);
    LoopPosFree(p, pos, foffs, w);
    SavePosFree(h.p, pos);
    if h.Accepted? {
      ItefPosFree(h.p, pos, h.words);
      SavePosFree(HandleItef(h.p, h.words).p, pos);
    }
  }

  lemma LoopPosFree(p: Parser, pos: nat, foffs: nat, w: Word)
    requires p.InRange() && (w == Then || w == Else || w == Do)
    ensures
      var h := HandleLoop(p, foffs, [w]);
      && h.p.pos == p.pos && HandleLoop(p.(pos := pos), foffs, [w]) == h.(p := h.p.(pos := pos))
      && (h.Accepted? ==> h.words == if w == Do then [] else [w])
  {
    assert [w][1..] == [];
  }

  lemma ItefPosFree(p: Parser, pos: nat, ws: Words)
    requires p.InRange() && (ws == [] || ws == [Then] || ws == [Else])
    ensures
      var h := HandleItef(p, ws);
      && h.p.pos == p.pos && HandleItef(p.(pos := pos), ws) == h.(p := h.p.(pos := pos))
      && (h.Accepted? ==> h.words == [])
  {
  }

  lemma SavePosFree(p: Parser, pos: nat)
    requires p.InRange()
    ensures
      var (q, ret) := SaveResult(p, true);
      q.pos == p.pos && SaveResult(p.(pos := pos), true) == (q.(pos := pos), ret)
  {
  }

  /** Only a loop line looks at its own number. */
  lemma OffsFree(p: Parser, foffs: nat, foffs': nat, ws: Words, failed: bool)
    requires p.InRange() && (ws == [] || (ws[0] != While && ws[0] != Until))
    ensures Perform(p, foffs, ws, failed) == Perform(p, foffs', ws, failed)
    ensures Asks(p, foffs, ws) == Asks(p, foffs', ws)
  {
    hide HandleItef; hide SaveResult; hide Break;
    assert HandleLoop(p, foffs, ws) == HandleLoop(p, foffs', ws);
  }

  /** A keyword alone leaves the exit status, unless it is an error. */
  lemma KeywordKeeps(p: Parser, foffs: nat, w: Word)
    requires p.InRange() && !(p.AwaitsDo() && p.AwaitsThen())
    requires w == Then || w == Else || (w == Do && !p.AwaitsThen())
    ensures
      var r := ParseCommand(p, foffs, [w]);
      r.Finished? && (r.ret || r.p.fail == p.fail)
  {
    assert [w][1..] == [];
  }

  /** The machine stands at a joint line. */
  predicate AtJoint(j: Script, c: Config) {
    c.p.InRange() && !c.halted && c.p.pos < |j.cmds| && Joint(j.cmds[c.p.pos])
  }

  /** What the keyword of the line does by itself. */
  function Keyword(j: Script, c: Config): (r: Parsed)
    requires AtJoint(j, c)
    ensures r.p.InRange()
  {
    ParseCommand(c.p.(pos := c.p.pos + 1), c.p.pos, [j.cmds[c.p.pos][0]])
  }

  /** The state of the split script behind the keyword. */
  function Behind(j: Script, c: Config): (q: Parser)
    requires AtJoint(j, c)
    ensures q.InRange()
  {
    Moved(j.cmds, Keyword(j, c).p).(pos := Place(j.cmds, c.p.pos) + 1)
  }

  /** The machine has read the keyword of a joint line. */
  function HalfWay(j: Script, c: Config): (d: Config)
    requires AtJoint(j, c)
    ensures d.p.InRange()
  {
    Config(Behind(j, c), c.results, MovedTrace(j.cmds, c.trace), false, false)
  }

  /** In the split script the keyword alone is parsed to the same, renumbered. */
  lemma KeywordMoves(j: Script, c: Config)
    requires AtJoint(j, c)
    ensures Keyword(j, c).Finished?
    ensures
      var at, q := Place(j.cmds, c.p.pos), Moved(j.cmds, c.p);
      && at + 1 < |Split(j).cmds| && Split(j).cmds[at] == [j.cmds[c.p.pos][0]] && q.pos == at && q.InRange()
      && Split(j).cmds[at + 1] == j.cmds[c.p.pos][1..]
      && ParseCommand(q.(pos := at + 1), at, [j.cmds[c.p.pos][0]]) == Finished(Behind(j, c), Keyword(j, c).ret)
  {
    hide Split; hide Place; hide SlotsOf; hide ParseCommand;
    var cmds, k := j.cmds, c.p.pos;
    var w, p, at := cmds[k][0], c.p.(pos := k + 1), Place(cmds, k);
    SplitIs(j);
    SplitAt(cmds, k);
    PosFree(p, at + 1, k, w);
    ParseMoves(cmds, p, k, [w]);
    PosFree(Moved(cmds, p), at + 1, at, w);
    assert Moved(cmds, c.p).(pos := at + 1) == Moved(cmds, p).(pos := at + 1);
  }

  /** The first half. */
  lemma FirstHalf(j: Script, c: Config)
    requires AtJoint(j, c)
    ensures
      var d := MovedConfig(j.cmds, c);
      && d.p.InRange() && d.p.pos + 1 < |Split(j).cmds| && Keyword(j, c).Finished?
      && Step(Split(j), d) == Return(Split(j), d, Behind(j, c), c.results, d.trace, Keyword(j, c).ret)
  {
    hide *;
    var d := MovedConfig(j.cmds, c);
    MovedIs(j.cmds, c);
    KeywordMoves(j, c);
    AtJointRuns(j, c);
    FinishedSteps(Split(j), d, Behind(j, c), Keyword(j, c).ret);
  }

  lemma AtJointRuns(j: Script, c: Config)
    requires AtJoint(j, c)
    ensures c.p.InRange() && !c.halted
  {
  }

  lemma MovedIs(cmds: seq<Words>, c: Config)
    ensures
      var d := MovedConfig(cmds, c);
      && d == Config(Moved(cmds, c.p), c.results, MovedTrace(cmds, c.trace), c.ret, c.halted)
      && d.p.pos == Place(cmds, c.p.pos)
  {
  }

  lemma FinishedSteps(s: Script, d: Config, q: Parser, ret: bool)
    requires d.p.InRange() && !d.halted && d.p.pos < |s.cmds| && q.InRange()
    requires ParseCommand(d.p.(pos := d.p.pos + 1), d.p.pos, s.cmds[d.p.pos]) == Finished(q, ret)
    ensures Step(s, d) == Return(s, d, q, d.results, d.trace, ret)
  {
    hide ParseCommand; hide Return;
  }

  lemma FinishedDoesNotAsk(p: Parser, foffs: nat, ws: Words)
    requires p.InRange() && ParseCommand(p, foffs, ws).Finished?
    ensures !Asks(p, foffs, ws)
  {
    hide ParseCommand;
  }

  /** The whole line in terms of its second half. */
  lemma JointPerforms(p: Parser, foffs: nat, ws: Words, failed: bool)
    requires Poised(p, ws) && Joint(ws) && !ParseCommand(p, foffs, [ws[0]]).ret
    requires ParseCommand(p, foffs, [ws[0]]).Finished?
    ensures
      var q := ParseCommand(p, foffs, [ws[0]]).p;
      && Perform(p, foffs, ws, failed) == Perform(q, foffs, ws[1..], failed)
      && Asks(p, foffs, ws) == Asks(q, foffs, ws[1..])
  {
    hide ParseCommand; hide Joint;
    KeywordAlone(p, foffs, ws);
  }

  /** The command behind the keyword does what the whole line does. */
  lemma HalfPerforms(j: Script, c: Config, failed: bool)
    requires AtJoint(j, c) && Poised(c.p, j.cmds[c.p.pos]) && Keyword(j, c).Finished? && !Keyword(j, c).ret
    ensures
      var k, d := c.p.pos, HalfWay(j, c);
      var p, q := c.p.(pos := k + 1), d.p.(pos := d.p.pos + 1);
      var r := Perform(p, k, j.cmds[k], failed);
      && d.p.pos == Place(j.cmds, k) + 1 < |Split(j).cmds|
      && Perform(q, d.p.pos, Split(j).cmds[d.p.pos], failed) == r.(p := Moved(j.cmds, r.p))
      && Asks(q, d.p.pos, Split(j).cmds[d.p.pos]) == Asks(p, k, j.cmds[k])
  {
    hide Perform; hide Asks; hide Split; hide Place; hide MovedTrace; hide SlotsOf; hide ParseCommand;
    var cmds, k, d := j.cmds, c.p.pos, HalfWay(j, c);
    var ws, p, q := cmds[k], c.p.(pos := k + 1), Keyword(j, c).p;
    KeywordMoves(j, c);
    PlaceNext(cmds, k);
    PosFree(p, 0, k, ws[0]);
    assert d.p.(pos := d.p.pos + 1) == Moved(cmds, q);
    JointPerforms(p, k, ws, failed);
    PerformMoves(cmds, q, k, ws[1..], failed);
    OffsFree(Moved(cmds, q), Place(cmds, k) + 1, Place(cmds, k), ws[1..], failed);
  }

  lemma HalfWayIs(j: Script, c: Config)
    requires AtJoint(j, c)
    ensures
      var d := HalfWay(j, c);
      && d.results == c.results && d.trace == MovedTrace(j.cmds, c.trace) && !d.ret && !d.halted && d.p.InRange()
      && d.p == Behind(j, c) && d.p.pos == Place(j.cmds, c.p.pos) + 1
      && c.p.InRange() && !c.halted && c.p.pos < |j.cmds| && JointAt(j.cmds, c.p.pos)
      && c.p.(pos := c.p.pos + 1).InRange() && d.p.(pos := d.p.pos + 1).InRange()
  {
  }

  /** The second half. */
  lemma SecondHalf(j: Script, c: Config)
    requires AtJoint(j, c) && Poised(c.p, j.cmds[c.p.pos]) && Keyword(j, c).Finished? && !Keyword(j, c).ret
    ensures
      var k, d := c.p.pos, HalfWay(j, c);
      if c.results == [] && Asks(c.p.(pos := k + 1), k, j.cmds[k]) then Step(j, c) == c && Step(Split(j), d) == d
      else Step(Split(j), d) == MovedConfig(j.cmds, Step(j, c))
  {
    hide *;
    var cmds, k, d := j.cmds, c.p.pos, HalfWay(j, c);
    var p, failed := c.p.(pos := k + 1), c.results != [] && c.results[0];
    HalfWayIs(j, c);
    HalfPerforms(j, c, failed);
    StepUnfold(j, c);
    StepUnfold(Split(j), d);
    if c.results != [] || !Asks(p, k, cmds[k]) {
      var r := Perform(p, k, cmds[k], failed);
      EventHalf(cmds, c.trace, k, r.argv, failed);
      ReturnMoves(j, c, d, r.p, if r.executed then c.results[1..] else c.results,
        if r.executed then c.trace + [Event(k, r.argv, failed)] else c.trace, r.ret);
    }
  }

  lemma EventHalf(cmds: seq<Words>, trace: seq<Event>, k: nat, argv: Words, failed: bool)
    requires JointAt(cmds, k)
    ensures MovedTrace(cmds, trace + [Event(k, argv, failed)]) ==
      MovedTrace(cmds, trace) + [Event(Place(cmds, k) + 1, argv, failed)]
  {
    hide MovedTrace; hide Place;
    TraceAppend(cmds, trace, Event(k, argv, failed));
  }

  // ----- Whole runs -----

  /** The script and the split script have come to the same end. */
  predicate Alike(cmds: seq<Words>, f: Config, e: Config) {
    && MovedTrace(cmds, f.trace) == e.trace && f.results == e.results && f.p.fail == e.p.fail && f.halted == e.halted
    && (e.halted ==> f.ret == e.ret && e.p == Moved(cmds, f.p).(pos := e.p.pos))
  }

  lemma MovedAlike(cmds: seq<Words>, c: Config)
    ensures Alike(cmds, c, MovedConfig(cmds, c))
  {
  }

  /** The command behind the keyword waits for a result: so does the line. */
  lemma WaitingAlike(j: Script, c: Config)
    requires AtJoint(j, c) && Poised(c.p, j.cmds[c.p.pos]) && Keyword(j, c).Finished? && !Keyword(j, c).ret
    ensures Alike(j.cmds, c, HalfWay(j, c))
  {
    hide ParseCommand; hide MovedTrace; hide SlotsOf; hide Place;
    KeywordKeeps(c.p.(pos := c.p.pos + 1), c.p.pos, j.cmds[c.p.pos][0]);
  }

  /** The keyword is an error: so is the line. */
  lemma ErrorHalf(j: Script, c: Config)
    requires AtJoint(j, c) && Poised(c.p, j.cmds[c.p.pos]) && Keyword(j, c).Finished? && Keyword(j, c).ret
    ensures
      var f, e := Step(j, c), Step(Split(j), MovedConfig(j.cmds, c));
      if j.ignore then e == MovedConfig(j.cmds, f) else f.halted && e.halted && Alike(j.cmds, f, e)
  {
    hide Step; hide Split; hide Place; hide MovedTrace; hide SlotsOf; hide ParseCommand; hide Joint;
    var cmds, k, d, r := j.cmds, c.p.pos, MovedConfig(j.cmds, c), Keyword(j, c);
    var p := c.p.(pos := k + 1);
    FirstHalf(j, c);
    KeywordAlone(p, k, cmds[k]);
    FinishedSteps(j, c, r.p, true);
    SplitIs(j);
    NextLinePlace(j, k);
  }

  /** In a run of a well-formed split script the keyword of a joint line is in its place. */
  lemma JointPoised(j: Script, c: Config)
    requires AtJoint(j, c) && Settled(Split(j).cmds, Moved(j.cmds, c.p))
    ensures Poised(c.p, j.cmds[c.p.pos])
  {
    hide Split; hide Place; hide SlotsOf; hide ParseCommand; hide Joint;
    KeywordMoves(j, c);
    TopMoves(j.cmds, c.p);
    JointKeyword(j.cmds[c.p.pos]);
  }

  lemma JointKeyword(ws: Words)
    requires Joint(ws)
    ensures |ws| > 1 && (ws[0] == Then || ws[0] == Else || ws[0] == Do)
  {
  }

  lemma {:induction false} StaysAtRest(s: Script, d: Config, n: nat)
    requires d.p.InRange() && Step(s, d) == d
    ensures Steps(s, d, n) == d
    decreases n
  {
    hide Step;
    if n > 0 {
      StaysAtRest(s, d, n - 1);
    }
  }

  lemma StepsNext(s: Script, d: Config, n: nat)
    requires d.p.InRange() && n > 0
    ensures Step(s, d).p.InRange() && Steps(s, d, n) == Steps(s, Step(s, d), n - 1)
  {
    hide Step;
  }

  lemma HaltedRests(s: Script, d: Config)
    requires d.p.InRange() && d.halted
    ensures Step(s, d) == d
  {
    hide Perform; hide Asks;
  }

  /** Behind the last command. */
  lemma EndStep(j: Script, c: Config)
    requires c.p.InRange() && !c.halted && c.p.pos >= |j.cmds|
    ensures Step(Split(j), MovedConfig(j.cmds, c)) == MovedConfig(j.cmds, Step(j, c))
  {
    hide Perform; hide Asks; hide MovedTrace; hide SlotsOf; hide SplitCmds; hide Place;
    SplitIs(j);
    SplitLength(j.cmds);
    if c.p.pos > |j.cmds| {
      PlaceGrows(j.cmds, |j.cmds|, c.p.pos);
    }
  }

  lemma NoPlaceWithin(cmds: seq<Words>, k: nat, m: nat)
    requires JointAt(cmds, k)
    ensures Place(cmds, m) != Place(cmds, k) + 1
  {
    if k < m {
      PlaceGrows(cmds, k, m);
    } else if m < k {
      PlaceGrows(cmds, m, k);
    }
  }

  /** The split script rests after `n` steps from the renumbered state. */
  ghost predicate SplitRests(j: Script, c: Config, n: nat) {
    && c.p.InRange() && MovedConfig(j.cmds, c).p.InRange()
    && var e := Steps(Split(j), MovedConfig(j.cmds, c), n);
       e.p.InRange() && Step(Split(j), e) == e
  }

  /** The script rests after `m` steps, at an end like that of the split script after `n`. */
  ghost predicate RestsAlike(j: Script, c: Config, n: nat, m: nat) {
    && c.p.InRange() && MovedConfig(j.cmds, c).p.InRange()
    && Step(j, Steps(j, c, m)) == Steps(j, c, m)
    && Alike(j.cmds, Steps(j, c, m), Steps(Split(j), MovedConfig(j.cmds, c), n))
  }

  /** The split script is well-formed and the run is on its track. */
  ghost predicate Going(j: Script, b: Block, c: Config) {
    && Split(j).cmds == Lines(b) && WellFormed(b) && c.p.InRange()
    && OnTrack(Split(j).cmds, MovedConfig(j.cmds, c).p)
  }

  lemma StillGoing(j: Script, b: Block, c: Config, d: Config)
    requires Going(j, b, c) && c.p.InRange() && d.p.InRange() && MovedConfig(j.cmds, c).p.InRange()
    requires MovedConfig(j.cmds, d) == Step(Split(j), MovedConfig(j.cmds, c))
    ensures Going(j, b, d)
  {
    hide Step; hide Split; hide OnTrack; hide Lines; hide WellFormed; hide MovedTrace; hide SlotsOf; hide Place;
    TrackStep(Split(j), MovedConfig(j.cmds, c), b);
  }

  lemma AtRest(j: Script, c: Config, n: nat)
    requires c.p.InRange() && Step(j, c) == c && MovedConfig(j.cmds, c).p.InRange()
    requires Step(Split(j), MovedConfig(j.cmds, c)) == MovedConfig(j.cmds, c)
    ensures RestsAlike(j, c, n, 0)
  {
    hide Step; hide Split; hide MovedConfig; hide Alike;
    StaysAtRest(Split(j), MovedConfig(j.cmds, c), n);
    MovedAlike(j.cmds, c);
    assert Steps(j, c, 0) == c;
  }

  lemma MovedRange(cmds: seq<Words>, c: Config)
    requires c.p.InRange()
    ensures MovedConfig(cmds, c).p.InRange()
  {
  }

  /** One step of the script is `i` steps of the split script. */
  lemma FurtherAlike(j: Script, c: Config, i: nat, n: nat, m: nat)
    requires c.p.InRange() && MovedConfig(j.cmds, c).p.InRange() && i <= n
    requires Steps(Split(j), MovedConfig(j.cmds, c), i) == MovedConfig(j.cmds, Step(j, c))
    requires RestsAlike(j, Step(j, c), n - i, m)
    ensures RestsAlike(j, c, n, m + 1)
  {
    hide Step; hide Split; hide MovedConfig; hide Alike; hide Steps;
    StepsAdd(Split(j), MovedConfig(j.cmds, c), i, n - i);
    StepsNext(j, c, m + 1);
  }

  lemma FurtherRests(j: Script, c: Config, i: nat, n: nat)
    requires SplitRests(j, c, n) && i <= n && c.p.InRange() && MovedConfig(j.cmds, c).p.InRange()
    requires Steps(Split(j), MovedConfig(j.cmds, c), i) == MovedConfig(j.cmds, Step(j, c))
    ensures SplitRests(j, Step(j, c), n - i)
  {
    hide Step; hide Split; hide MovedConfig; hide Steps;
    MovedRange(j.cmds, Step(j, c));
    StepsAdd(Split(j), MovedConfig(j.cmds, c), i, n - i);
  }

  /** The script comes to rest as the split script does. */
  lemma {:induction false} JoinedRests(j: Script, b: Block, c: Config, n: nat) returns (m: nat)
    requires Going(j, b, c) && SplitRests(j, c, n)
    ensures RestsAlike(j, c, n, m)
    decreases n, 2
  {
    hide *;
    GoingOn(j, b, c);
    MovedIs(j.cmds, c);
    if c.halted {
      HaltedRests(j, c);
      HaltedRests(Split(j), MovedConfig(j.cmds, c));
      AtRest(j, c, n);
      m := 0;
    } else if c.p.pos >= |j.cmds| {
      EndStep(j, c);
      m := NextRests(j, b, c, n);
    } else if !Joint(j.cmds[c.p.pos]) {
      PlainStep(j, c);
      m := NextRests(j, b, c, n);
    } else {
      m := JointRests(j, b, c, n);
    }
  }

  lemma GoingOn(j: Script, b: Block, c: Config)
    requires Going(j, b, c)
    ensures c.p.InRange() && MovedConfig(j.cmds, c).p.InRange()
    ensures !c.halted && c.p.pos < |j.cmds| && Joint(j.cmds[c.p.pos]) ==>
      AtJoint(j, c) && Poised(c.p, j.cmds[c.p.pos])
  {
    hide Split; hide Place; hide SlotsOf; hide Joint; hide Settled; hide Poised; hide Lines; hide MovedTrace;
    if !c.halted && c.p.pos < |j.cmds| && Joint(j.cmds[c.p.pos]) {
      JointPoised(j, c);
    }
  }

  /** One step of each. */
  lemma {:induction false} NextRests(j: Script, b: Block, c: Config, n: nat) returns (m: nat)
    requires Going(j, b, c) && SplitRests(j, c, n) && c.p.InRange() && MovedConfig(j.cmds, c).p.InRange()
    requires Step(Split(j), MovedConfig(j.cmds, c)) == MovedConfig(j.cmds, Step(j, c))
    ensures RestsAlike(j, c, n, m)
    decreases n, 0
  {
    hide *;
    var s, d, f := Split(j), MovedConfig(j.cmds, c), Step(j, c);
    if n == 0 {
      RestsNow(j, c);
      ConfigInjective(j.cmds, f, c);
      AtRest(j, c, n);
      m := 0;
    } else {
      OneStep(s, d);
      FurtherRests(j, c, 1, n);
      StillGoing(j, b, c, f);
      var k := JoinedRests(j, b, f, n - 1);
      FurtherAlike(j, c, 1, n, k);
      m := k + 1;
    }
  }

  lemma RestsNow(j: Script, c: Config)
    requires SplitRests(j, c, 0)
    ensures c.p.InRange() && MovedConfig(j.cmds, c).p.InRange()
    ensures Step(Split(j), MovedConfig(j.cmds, c)) == MovedConfig(j.cmds, c)
  {
    hide Step; hide Split; hide MovedConfig;
  }

  lemma OneStep(s: Script, d: Config)
    requires d.p.InRange()
    ensures Step(s, d).p.InRange() && Steps(s, d, 1) == Step(s, d)
  {
    hide Step;
    StepsNext(s, d, 1);
  }

  lemma TwoSteps(s: Script, d: Config)
    requires d.p.InRange()
    ensures Step(s, d).p.InRange() && Steps(s, d, 2) == Step(s, Step(s, d))
  {
    hide Step;
    StepsNext(s, d, 2);
    OneStep(s, Step(s, d));
  }

  /** The joint line. */
  lemma {:induction false} JointRests(j: Script, b: Block, c: Config, n: nat) returns (m: nat)
    requires Going(j, b, c) && SplitRests(j, c, n) && AtJoint(j, c) && Poised(c.p, j.cmds[c.p.pos])
    ensures RestsAlike(j, c, n, m)
    decreases n, 1
  {
    hide *;
    var s, d := Split(j), MovedConfig(j.cmds, c);
    HalfWayIs(j, c);
    MovedRange(j.cmds, c);
    MovedIs(j.cmds, c);
    FirstHalf(j, c);
    if Keyword(j, c).ret {
      ErrorHalf(j, c);
      if j.ignore {
        m := NextRests(j, b, c, n);
      } else {
        ErrorRests(j, c, n);
        m := 1;
      }
    } else {
      ReturnFalse(s, d, Behind(j, c), c.results, d.trace);
      HalfWayConfig(j, c);
      SecondHalf(j, c);
      m := BehindRests(j, b, c, n);
    }
  }

  lemma ReturnFalse(s: Script, d: Config, p: Parser, results: seq<bool>, trace: seq<Event>)
    requires d.p.pos < |s.cmds| && p.InRange()
    ensures Return(s, d, p, results, trace, false) == Config(p, results, trace, false, false)
  {
  }

  lemma HalfWayConfig(j: Script, c: Config)
    requires AtJoint(j, c)
    ensures HalfWay(j, c) == Config(Behind(j, c), c.results, MovedTrace(j.cmds, c.trace), false, false)
  {
  }

  lemma ErrorRests(j: Script, c: Config, n: nat)
    requires SplitRests(j, c, n) && c.p.InRange() && !c.halted && MovedConfig(j.cmds, c).p.InRange()
    requires
      var f, e := Step(j, c), Step(Split(j), MovedConfig(j.cmds, c));
      f.halted && e.halted && Alike(j.cmds, f, e)
    ensures RestsAlike(j, c, n, 1)
  {
    hide *;
    var s, d := Split(j), MovedConfig(j.cmds, c);
    MovedIs(j.cmds, c);
    if n == 0 {
      RestsNow(j, c);
    } else {
      StepsNext(s, d, n);
      HaltedRests(s, Step(s, d));
      StaysAtRest(s, Step(s, d), n - 1);
    }
    OneStep(j, c);
    HaltedRests(j, Step(j, c));
    RestsAlikeIs(j, c, n, 1);
  }

  lemma RestsAlikeIs(j: Script, c: Config, n: nat, m: nat)
    requires c.p.InRange() && MovedConfig(j.cmds, c).p.InRange()
    requires Step(j, Steps(j, c, m)) == Steps(j, c, m)
    requires Alike(j.cmds, Steps(j, c, m), Steps(Split(j), MovedConfig(j.cmds, c), n))
    ensures RestsAlike(j, c, n, m)
  {
    hide Step; hide Split; hide MovedConfig; hide Alike; hide Steps;
  }

  /** From the middle of the joint line. */
  lemma {:induction false} BehindRests(j: Script, b: Block, c: Config, n: nat) returns (m: nat)
    requires Going(j, b, c) && SplitRests(j, c, n) && AtJoint(j, c) && Poised(c.p, j.cmds[c.p.pos])
    requires c.p.InRange() && MovedConfig(j.cmds, c).p.InRange()
    requires Keyword(j, c).Finished? && !Keyword(j, c).ret
    requires Step(Split(j), MovedConfig(j.cmds, c)) == HalfWay(j, c)
    requires (Step(j, c) == c && Step(Split(j), HalfWay(j, c)) == HalfWay(j, c))
      || Step(Split(j), HalfWay(j, c)) == MovedConfig(j.cmds, Step(j, c))
    ensures RestsAlike(j, c, n, m)
    decreases n, 0
  {
    hide *;
    var s, d, h, f := Split(j), MovedConfig(j.cmds, c), HalfWay(j, c), Step(j, c);
    HalfWayIs(j, c);
    MovedIs(j.cmds, c);
    MovedIs(j.cmds, f);
    NoPlaceWithin(j.cmds, c.p.pos, f.p.pos);
    NotAtOnce(j, c, n);
    if Step(s, h) == h {
      StepsNext(s, d, n);
      StaysAtRest(s, h, n - 1);
      WaitingAlike(j, c);
      NoSteps(j, c);
      RestsAlikeIs(j, c, n, 0);
      m := 0;
    } else {
      TwoSteps(s, d);
      NotYet(j, c, n);
      FurtherRests(j, c, 2, n);
      HalfGoing(j, b, c);
      var k := JoinedRests(j, b, f, n - 2);
      FurtherAlike(j, c, 2, n, k);
      m := k + 1;
    }
  }

  lemma NoSteps(j: Script, c: Config)
    requires c.p.InRange()
    ensures Steps(j, c, 0) == c
  {
  }

  lemma NotAtOnce(j: Script, c: Config, n: nat)
    requires SplitRests(j, c, n) && c.p.InRange() && MovedConfig(j.cmds, c).p.InRange()
    requires Step(Split(j), MovedConfig(j.cmds, c)) != MovedConfig(j.cmds, c)
    ensures n > 0
  {
    hide Step; hide Split; hide MovedConfig;
  }

  /** The split script does not rest in the middle of the line. */
  lemma NotYet(j: Script, c: Config, n: nat)
    requires SplitRests(j, c, n) && n > 0 && c.p.InRange() && MovedConfig(j.cmds, c).p.InRange()
    requires
      var h := Step(Split(j), MovedConfig(j.cmds, c));
      Step(Split(j), h) != h
    ensures n >= 2
  {
    hide Step; hide Split; hide MovedConfig;
    OneStep(Split(j), MovedConfig(j.cmds, c));
  }

  lemma HalfGoing(j: Script, b: Block, c: Config)
    requires Going(j, b, c) && AtJoint(j, c)
    requires Step(Split(j), MovedConfig(j.cmds, c)) == HalfWay(j, c)
    requires Step(Split(j), HalfWay(j, c)) == MovedConfig(j.cmds, Step(j, c))
    ensures Going(j, b, Step(j, c))
  {
    hide Step; hide Split; hide OnTrack; hide Lines; hide WellFormed; hide MovedTrace; hide SlotsOf; hide Place;
    TrackStep(Split(j), MovedConfig(j.cmds, c), b);
    TrackStep(Split(j), HalfWay(j, c), b);
  }

  // ----- The theorem -----

  lemma MovedIdle(cmds: seq<Words>, p: Parser)
    requires Idle(p)
    ensures Idle(Moved(cmds, p)) && Moved(cmds, p).fail == p.fail && Quiet(Moved(cmds, p))
  {
  }

  lemma MovedStacks(cmds: seq<Words>, p: Parser, q: Parser)
    requires SameStacks(Moved(cmds, p), Moved(cmds, q))
    ensures SameStacks(p, q)
  {
    assert |SlotsOf(cmds, p.lp)| == |p.lp| && |SlotsOf(cmds, q.lp)| == |q.lp|;
    forall i | 0 <= i <= p.lpndx ensures p.lp[i] == q.lp[i] {
      assert SlotsOf(cmds, p.lp)[i] == SlotsOf(cmds, q.lp)[i];
      SlotInjective(cmds, p.lp[i], q.lp[i]);
    }
  }

  /**
    Every script whose split form is laid out from a regular tree comes to rest as the tree says,
    wherever the first command of a part or a body stands: the same commands are run, with the
    same results, and it ends with the same exit status and with the stacks as they began.
  */
  lemma JoinedRefinesTree(j: Script, b: Block, p: Parser, rs: seq<bool>) returns (m: nat)
    requires Split(j).cmds == Lines(b) && (j.ignore ==> CommandsEndLines(Split(j)))
    requires WellFormed(b) && Regular(b, false) && Idle(p) && Fits(p, b)
    ensures
      var f, meant := Steps(j, Begin(p, rs), m), Meant(Split(j), b, p, rs);
      && Step(j, f) == f
      && MovedTrace(j.cmds, f.trace) == meant.events && f.results == meant.rest && f.p.fail == meant.fail
      && f.halted == (meant.end != Waiting) && (f.halted ==> f.ret == meant.ret)
      && (meant.end == Completed ==> SameStacks(p, f.p))
  {
    hide *;
    var c, q := Begin(p, rs), Moved(j.cmds, p);
    MovedIdle(j.cmds, p);
    MovedFits(j.cmds, p, b);
    SplitIs(j);
    var n := ScriptRefinesTree(Split(j), b, q, rs);
    BeginMoves(j, b, p, rs);
    SplitRestsIs(j, b, p, rs, n);
    m := JoinedRests(j, b, c, n);
    EndAlike(j, b, p, rs, n, m);
  }

  lemma MovedFits(cmds: seq<Words>, p: Parser, b: Block)
    requires Fits(p, b)
    ensures Fits(Moved(cmds, p), b)
  {
  }

  lemma BeginMoves(j: Script, b: Block, p: Parser, rs: seq<bool>)
    requires Idle(p) && Split(j).cmds == Lines(b) && WellFormed(b)
    ensures
      && MovedConfig(j.cmds, Begin(p, rs)) == Begin(Moved(j.cmds, p), rs) && Begin(p, rs).p.InRange()
      && Begin(Moved(j.cmds, p), rs).p.InRange() && Going(j, b, Begin(p, rs))
      && Meant(Split(j), b, Moved(j.cmds, p), rs) == Meant(Split(j), b, p, rs)
  {
    hide Split; hide Lines; hide Interpret; hide Place; hide Settled; hide SlotsOf; hide WellFormed;
    MovedIdle(j.cmds, p);
    QuietSettled(Split(j).cmds, Moved(j.cmds, p));
  }

  lemma SplitRestsIs(j: Script, b: Block, p: Parser, rs: seq<bool>, n: nat)
    requires Begin(p, rs).p.InRange() && Begin(Moved(j.cmds, p), rs).p.InRange()
    requires MovedConfig(j.cmds, Begin(p, rs)) == Begin(Moved(j.cmds, p), rs)
    requires RestsAs(Split(j), Moved(j.cmds, p), Steps(Split(j), Begin(Moved(j.cmds, p), rs), n),
      Meant(Split(j), b, Moved(j.cmds, p), rs))
    ensures SplitRests(j, Begin(p, rs), n)
  {
    hide Split; hide Step; hide Steps; hide Moved; hide MovedConfig; hide Begin; hide Meant;
  }

  lemma EndAlike(j: Script, b: Block, p: Parser, rs: seq<bool>, n: nat, m: nat)
    requires Idle(p) && Split(j).cmds == Lines(b) && WellFormed(b) && RestsAlike(j, Begin(p, rs), n, m)
    requires Begin(p, rs).p.InRange() && Begin(Moved(j.cmds, p), rs).p.InRange()
    requires MovedConfig(j.cmds, Begin(p, rs)) == Begin(Moved(j.cmds, p), rs)
    requires Meant(Split(j), b, Moved(j.cmds, p), rs) == Meant(Split(j), b, p, rs)
    requires RestsAs(Split(j), Moved(j.cmds, p), Steps(Split(j), Begin(Moved(j.cmds, p), rs), n),
      Meant(Split(j), b, Moved(j.cmds, p), rs))
    ensures
      var f, meant := Steps(j, Begin(p, rs), m), Meant(Split(j), b, p, rs);
      && Step(j, f) == f
      && MovedTrace(j.cmds, f.trace) == meant.events && f.results == meant.rest && f.p.fail == meant.fail
      && f.halted == (meant.end != Waiting) && (f.halted ==> f.ret == meant.ret)
      && (meant.end == Completed ==> SameStacks(p, f.p))
  {
    hide Split; hide Step; hide Steps; hide Begin; hide Meant; hide MovedTrace; hide SlotsOf; hide Place; hide Lines;
    hide WellFormed; hide MovedConfig;
    var f, e := Steps(j, Begin(p, rs), m), Steps(Split(j), Begin(Moved(j.cmds, p), rs), n);
    if Meant(Split(j), b, p, rs).end == Completed {
      assert SameStacks(Moved(j.cmds, p), Moved(j.cmds, f.p).(pos := e.p.pos));
      assert SameStacks(Moved(j.cmds, p), Moved(j.cmds, f.p));
      MovedStacks(j.cmds, p, f.p);
    }
  }
}
