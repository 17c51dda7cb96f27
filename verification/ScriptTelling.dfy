/**
  Lists of results that lead the interpreter through a tree: to its end, or to the first place
  where the machine cannot follow.
*/
module ScriptTelling {
  import opened ScriptMachine
  import opened ScriptTree

  /** Every result is spent on one event, and events stay within the block. */
  ghost predicate Bounded(m: Meaning, rs: seq<bool>, lo: nat, hi: nat) {
    && |m.events| + |m.rest| == |rs|
    && (m.end == Aborted ==> m.events != [])
    && forall e :: e in m.events ==> lo <= e.line < hi
  }

  lemma BoundedAfter(m: Meaning, m': Meaning, rs: seq<bool>, lo: nat, mid: nat, hi: nat)
    requires lo <= mid <= hi && m.end == Completed && Bounded(m, rs, lo, mid) && Bounded(m', m.rest, mid, hi)
    ensures Bounded(m'.After(m.events), rs, lo, hi)
  {
  }

  lemma BoundedWithin(m: Meaning, rs: seq<bool>, lo: nat, mid: nat, hi: nat)
    requires mid <= hi && Bounded(m, rs, lo, mid)
    ensures Bounded(m, rs, lo, hi)
  {
  }

  lemma InterpretCons(b: Block, at: nat, fail: bool, ret: bool, mode: Mode, rs: seq<bool>)
    requires b.Cons?
    ensures Lines(b) == LinesOf(b.head) + Lines(b.tail)
    ensures WellFormed(b) ==> WellFormedStmt(b.head) && WellFormed(b.tail)
    ensures
      var m := InterpretStmt(b.head, at, fail, ret, mode, rs);
      Interpret(b, at, fail, ret, mode, rs) ==
        if m.end != Completed then m
        else Interpret(b.tail, at + |LinesOf(b.head)|, m.fail, m.ret, mode, m.rest).After(m.events)
  {
    hide InterpretStmt;
  }

  lemma {:induction false} BlockBounded(b: Block, at: nat, fail: bool, ret: bool, mode: Mode, rs: seq<bool>)
    requires WellFormed(b)
    ensures Bounded(Interpret(b, at, fail, ret, mode, rs), rs, at, at + |Lines(b)|)
    decreases |rs|, b, 0
  {
    hide *;
    if b == Nil {
      NilBounded(at, fail, ret, mode, rs);
    } else {
      var st, rest := b.head, b.tail;
      InterpretCons(b, at, fail, ret, mode, rs);
      StmtBounded(st, at, fail, ret, mode, rs);
      var m, mid := InterpretStmt(st, at, fail, ret, mode, rs), at + |LinesOf(st)|;
      if m.end == Completed {
        var m' := Interpret(rest, mid, m.fail, m.ret, mode, m.rest);
        BlockBounded(rest, mid, m.fail, m.ret, mode, m.rest);
        BoundedAfter(m, m', rs, at, mid, mid + |Lines(rest)|);
      } else {
        BoundedWithin(m, rs, at, mid, mid + |Lines(rest)|);
      }
    }
  }

  lemma {:induction false} StmtBounded(st: Stmt, at: nat, fail: bool, ret: bool, mode: Mode, rs: seq<bool>)
    requires WellFormedStmt(st)
    ensures Bounded(InterpretStmt(st, at, fail, ret, mode, rs), rs, at, at + |LinesOf(st)|)
    decreases |rs|, st, 2
  {
    hide *;
    if rs != [] && st.Branch? {
      BranchUnfold(st, at, fail, ret, mode, rs);
      BranchLines(st);
      var ev, mid, hi := Event(at, st.test, rs[0]), at + 2 + |Lines(st.thn)|, at + |LinesOf(st)|;
      if st.inverted == rs[0] {
        var m := Interpret(st.thn, at + 2, false, false, mode, rs[1..]);
        BlockBounded(st.thn, at + 2, false, false, mode, rs[1..]);
        BoundedPart(m, rs, ev, at, at + 2, mid, hi, m.end != Completed && m.ret);
      } else {
        var m := Interpret(st.els, mid + 1, false, false, mode, rs[1..]);
        BlockBounded(st.els, mid + 1, false, false, mode, rs[1..]);
        BoundedPart(m, rs, ev, at, mid + 1, mid + 1 + |Lines(st.els)|, hi, m.end != Completed && m.ret);
      }
    } else if rs != [] && st.Loop? {
      LoopBounded(st, at, fail, ret, mode, rs);
    } else {
      SimpleBounded(st, at, fail, ret, mode, rs);
    }
  }

  lemma SimpleBounded(st: Stmt, at: nat, fail: bool, ret: bool, mode: Mode, rs: seq<bool>)
    requires rs == [] || !(st.Branch? || st.Loop?)
    ensures Bounded(InterpretStmt(st, at, fail, ret, mode, rs), rs, at, at + |LinesOf(st)|)
  {
    hide Interpret; hide Lines;
  }

  lemma BranchLines(st: Stmt)
    requires st.Branch? && WellFormedStmt(st)
    ensures WellFormed(st.thn) && WellFormed(st.els)
    ensures |LinesOf(st)| >= 3 + |Lines(st.thn)|
    ensures if st.els == Nil then |Lines(st.els)| == 0
            else |LinesOf(st)| == 4 + |Lines(st.thn)| + |Lines(st.els)|
  {
  }

  lemma BranchUnfold(st: Stmt, at: nat, fail: bool, ret: bool, mode: Mode, rs: seq<bool>)
    requires st.Branch? && rs != []
    ensures
      var m := if st.inverted == rs[0] then Interpret(st.thn, at + 2, false, false, mode, rs[1..])
               else Interpret(st.els, at + 3 + |Lines(st.thn)|, false, false, mode, rs[1..]);
      InterpretStmt(st, at, fail, ret, mode, rs)
        == m.After([Event(at, st.test, rs[0])]).(ret := m.end != Completed && m.ret)
  {
    hide Interpret;
  }

  /** A part of a branch, behind its test. */
  lemma BoundedPart(m: Meaning, rs: seq<bool>, ev: Event, lo: nat, from: nat, mid: nat, hi: nat, ret: bool)
    requires rs != [] && ev.line == lo <= from && lo < hi && Bounded(m, rs[1..], from, mid)
    requires mid <= hi || from == mid
    ensures Bounded(m.After([ev]).(ret := ret), rs, lo, hi)
  {
  }

  lemma {:induction false} LoopBounded(st: Stmt, at: nat, fail: bool, ret: bool, mode: Mode, rs: seq<bool>)
    requires WellFormedStmt(st) && st.Loop? && rs != []
    ensures Bounded(InterpretStmt(st, at, fail, ret, mode, rs), rs, at, at + |LinesOf(st)|)
    decreases |rs|, st, 1
  {
    hide *;
    var ev, hi := Event(at, st.test, rs[0]), at + |LinesOf(st)|;
    LoopUnfold(st, at, fail, ret, mode, rs);
    var m := Interpret(st.body, at + 2, false, false, mode.(inLoop := true), rs[1..]);
    BlockBounded(st.body, at + 2, false, false, mode.(inLoop := true), rs[1..]);
    BoundedEvent(m, rs, ev, at, at + 2 + |Lines(st.body)|, hi);
    BoundedTest(rs, ev, at, hi);
    if st.until == rs[0] && m.end == Completed {
      var m' := InterpretStmt(st, at, m.fail, false, mode, m.rest);
      StmtBounded(st, at, m.fail, false, mode, m.rest);
      BoundedAgain(m, m', rs, ev, at, hi);
    }
  }

  lemma LoopUnfold(st: Stmt, at: nat, fail: bool, ret: bool, mode: Mode, rs: seq<bool>)
    requires st.Loop? && rs != [] && WellFormedStmt(st)
    ensures WellFormed(st.body) && |LinesOf(st)| == 3 + |Lines(st.body)|
    ensures
      var test := [Event(at, st.test, rs[0])];
      var m := Interpret(st.body, at + 2, false, false, mode.(inLoop := true), rs[1..]);
      && |m.rest| < |rs|
      && InterpretStmt(st, at, fail, ret, mode, rs) ==
         if st.until != rs[0] then Meaning(test, rs[1..], Completed, false, false)
         else if m.end == Broken then m.After(test).(end := Completed, ret := false)
         else if m.end != Completed then m.After(test)
         else InterpretStmt(st, at, m.fail, false, mode, m.rest).After(test + m.events)
  {
    hide Interpret; hide Lines;
  }

  lemma BoundedEvent(m: Meaning, rs: seq<bool>, ev: Event, lo: nat, mid: nat, hi: nat)
    requires rs != [] && ev.line == lo < mid <= hi && Bounded(m, rs[1..], lo + 2, mid)
    ensures Bounded(m.After([ev]), rs, lo, hi) && Bounded(m.After([ev]).(end := Completed, ret := false), rs, lo, hi)
  {
  }

  lemma BoundedTest(rs: seq<bool>, ev: Event, lo: nat, hi: nat)
    requires rs != [] && ev.line == lo < hi
    ensures Bounded(Meaning([ev], rs[1..], Completed, false, false), rs, lo, hi)
  {
  }

  lemma BoundedAgain(m: Meaning, m': Meaning, rs: seq<bool>, ev: Event, lo: nat, hi: nat)
    requires Bounded(m.After([ev]), rs, lo, hi) && Bounded(m', m.rest, lo, hi)
    ensures Bounded(m'.After([ev] + m.events), rs, lo, hi)
  {
  }

  lemma NilBounded(at: nat, fail: bool, ret: bool, mode: Mode, rs: seq<bool>)
    ensures Bounded(Interpret(Nil, at, fail, ret, mode, rs), rs, at, at + |Lines(Nil)|)
  {
  }

  /** Results that take the interpreter once through a block. */
  function Finishing(b: Block, inLoop: bool): (rs: seq<bool>) {
    match b
    case Nil => []
    case Cons(st, rest) => FinishingOf(st, inLoop) + if Leaves(st, inLoop) then [] else Finishing(rest, inLoop)
  }

  function FinishingOf(st: Stmt, inLoop: bool): (rs: seq<bool>) {
    match st
    case Blank => []
    case Command(_) => [false]
    case BreakLoop => []
    case Branch(inverted, _, thn, _, _) => [inverted] + Finishing(thn, inLoop)
    case Loop(until, _, _) => [!until]
  }

  /** On that way the block comes to a `break` for a loop around it. */
  predicate LeavesBlock(b: Block, inLoop: bool) {
    b.Cons? && (Leaves(b.head, inLoop) || LeavesBlock(b.tail, inLoop))
  }

  predicate Leaves(st: Stmt, inLoop: bool) {
    match st
    case BreakLoop => inLoop
    case Branch(_, _, thn, _, _) => LeavesBlock(thn, inLoop)
    case _ => false
  }

  /** How a block ends that is left by `break` or not. */
  function EndOf(leaves: bool): Ending {
    if leaves then Broken else Completed
  }

  lemma {:induction false} Finishes(b: Block, at: nat, fail: bool, ret: bool, mode: Mode, more: seq<bool>)
    ensures
      var m := Interpret(b, at, fail, ret, mode, Finishing(b, mode.inLoop) + more);
      m.end == EndOf(LeavesBlock(b, mode.inLoop)) && m.rest == more
    decreases b, 0
  {
    hide InterpretStmt; hide LinesOf; hide FinishingOf; hide Leaves;
    if b == Nil {
      assert Finishing(b, mode.inLoop) + more == more;
    } else {
      hide Interpret; hide Lines;
      var st, rest, leaves := b.head, b.tail, Leaves(b.head, mode.inLoop);
      var next := if leaves then more else Finishing(rest, mode.inLoop) + more;
      var rs := Finishing(b, mode.inLoop) + more;
      assert rs == FinishingOf(st, mode.inLoop) + next;
      InterpretCons(b, at, fail, ret, mode, rs);
      FinishesStmt(st, at, fail, ret, mode, next);
      var m := InterpretStmt(st, at, fail, ret, mode, rs);
      if !leaves {
        Finishes(rest, at + |LinesOf(st)|, m.fail, m.ret, mode, more);
      }
    }
  }

  lemma {:induction false} FinishesStmt(st: Stmt, at: nat, fail: bool, ret: bool, mode: Mode, more: seq<bool>)
    ensures
      var m := InterpretStmt(st, at, fail, ret, mode, FinishingOf(st, mode.inLoop) + more);
      m.end == EndOf(Leaves(st, mode.inLoop)) && m.rest == more
    decreases st, 1
  {
    var rs := FinishingOf(st, mode.inLoop) + more;
    match st
    case Blank =>
      assert rs == more;
    case BreakLoop =>
      assert rs == more;
    case Command(_) =>
      assert rs[1..] == more;
    case Branch(inverted, _, thn, _, _) =>
      assert rs[0] == inverted && rs[1..] == Finishing(thn, mode.inLoop) + more;
      Finishes(thn, at + 2, false, false, mode, more);
    case Loop(until, _, _) =>
      assert rs[0] == !until && rs[1..] == more;
  }

  /** A regular statement does not leave a loop around it, unless it is `break` itself. */
  lemma {:induction false} RegularStays(st: Stmt, inLoop: bool)
    requires RegularStmt(st, inLoop) && !(st.BreakLoop? && inLoop)
    ensures !Leaves(st, inLoop)
    decreases st, 1
  {
    if st.Branch? {
      RegularBlockStays(st.thn, inLoop);
    }
  }

  lemma {:induction false} RegularBlockStays(b: Block, inLoop: bool)
    requires Regular(b, inLoop) && (inLoop ==> NoDirectBreak(b))
    ensures !LeavesBlock(b, inLoop)
    decreases b, 0
  {
    if b.Cons? {
      RegularStays(b.head, inLoop);
      RegularBlockStays(b.tail, inLoop);
    }
  }

  /** The first place that is not regular is a `break` below an `if` of its own loop. */
  predicate BreakFirst(b: Block, inLoop: bool)
    requires !Regular(b, inLoop)
    decreases b, 0
  {
    if !RegularStmt(b.head, inLoop) then BreakFirstOf(b.head, inLoop) else BreakFirst(b.tail, inLoop)
  }

  predicate BreakFirstOf(st: Stmt, inLoop: bool)
    requires !RegularStmt(st, inLoop)
    decreases st, 1
  {
    match st
    case Branch(_, _, thn, _, els) =>
      if !Regular(thn, inLoop) then BreakFirst(thn, inLoop)
      else if inLoop && !NoDirectBreak(thn) then true
      else if !Regular(els, inLoop) then BreakFirst(els, inLoop)
      else true
    case Loop(_, _, body) => NoDirectLoop(body) && BreakFirst(body, true)
  }

  /** Results that lead to that place; a loop in a loop gets a result for its test as well. */
  function Telling(b: Block, inLoop: bool): (rs: seq<bool>)
    requires !Regular(b, inLoop)
    ensures rs != []
    decreases b, 0
  {
    if !RegularStmt(b.head, inLoop) then TellingOf(b.head, inLoop)
    else FinishingOf(b.head, inLoop) + Telling(b.tail, inLoop)
  }

  function TellingOf(st: Stmt, inLoop: bool): (rs: seq<bool>)
    requires !RegularStmt(st, inLoop)
    ensures rs != []
    decreases st, 1
  {
    match st
    case Branch(inverted, _, thn, _, els) =>
      if !Regular(thn, inLoop) then [inverted] + Telling(thn, inLoop)
      else if inLoop && !NoDirectBreak(thn) then [inverted] + ToBreak(thn)
      else if !Regular(els, inLoop) then [!inverted] + Telling(els, inLoop)
      else [!inverted] + ToBreak(els)
    case Loop(until, _, body) =>
      if !NoDirectLoop(body) then [!until, false] else [until] + Telling(body, true)
  }

  /** Results that lead to the first `break` of a block. */
  function ToBreak(b: Block): (rs: seq<bool>)
    requires !NoDirectBreak(b)
  {
    if b.head.BreakLoop? then [] else FinishingOf(b.head, true) + ToBreak(b.tail)
  }

  /** Behind a `break` that tells, the interpreter leaves the block as well. */
  predicate ToldLeaves(b: Block, inLoop: bool)
    requires !Regular(b, inLoop) && BreakFirst(b, inLoop)
    decreases b, 0
  {
    if !RegularStmt(b.head, inLoop) then ToldLeavesOf(b.head, inLoop) || LeavesBlock(b.tail, inLoop)
    else ToldLeaves(b.tail, inLoop)
  }

  predicate ToldLeavesOf(st: Stmt, inLoop: bool)
    requires !RegularStmt(st, inLoop) && BreakFirstOf(st, inLoop)
    decreases st, 1
  {
    match st
    case Branch(_, _, thn, _, els) =>
      if !Regular(thn, inLoop) then ToldLeaves(thn, inLoop)
      else if inLoop && !NoDirectBreak(thn) then true
      else if !Regular(els, inLoop) then ToldLeaves(els, inLoop)
      else true
    case Loop(_, _, body) => false
  }

  /** Results that take the interpreter from there to the end of the block. */
  function Rest(b: Block, inLoop: bool): (rs: seq<bool>)
    requires !Regular(b, inLoop) && BreakFirst(b, inLoop)
    decreases b, 0
  {
    if !RegularStmt(b.head, inLoop) then
      RestOf(b.head, inLoop) + if ToldLeavesOf(b.head, inLoop) then [] else Finishing(b.tail, inLoop)
    else Rest(b.tail, inLoop)
  }

  function RestOf(st: Stmt, inLoop: bool): (rs: seq<bool>)
    requires !RegularStmt(st, inLoop) && BreakFirstOf(st, inLoop)
    decreases st, 1
  {
    match st
    case Branch(_, _, thn, _, els) =>
      if !Regular(thn, inLoop) then Rest(thn, inLoop)
      else if inLoop && !NoDirectBreak(thn) then []
      else if !Regular(els, inLoop) then Rest(els, inLoop)
      else []
    case Loop(until, _, body) => Rest(body, true) + if ToldLeaves(body, true) then [] else [!until]
  }

  lemma ToldCons(b: Block, l: bool, more: seq<bool>)
    requires !Regular(b, l) && BreakFirst(b, l)
    ensures b.Cons? && EndOf(true) == Broken && EndOf(false) == Completed
    ensures
      var st, rest := b.head, b.tail;
      var rs := Telling(b, l) + (Rest(b, l) + more);
      if !RegularStmt(st, l) then
        var next := if ToldLeavesOf(st, l) then more else Finishing(rest, l) + more;
        && BreakFirstOf(st, l) && rs == TellingOf(st, l) + (RestOf(st, l) + next)
        && ToldLeaves(b, l) == (ToldLeavesOf(st, l) || LeavesBlock(rest, l))
      else
        && !Regular(rest, l) && BreakFirst(rest, l) && !(st.BreakLoop? && l) && ToldLeaves(b, l) == ToldLeaves(rest, l)
        && rs == FinishingOf(st, l) + (Telling(rest, l) + (Rest(rest, l) + more))
  {
    hide TellingOf; hide RestOf; hide Finishing; hide FinishingOf; hide LeavesBlock; hide RegularStmt;
    hide BreakFirstOf; hide ToldLeavesOf;
  }

  lemma {:induction false} ToldFinishes(b: Block, at: nat, fail: bool, ret: bool, mode: Mode, more: seq<bool>)
    requires !Regular(b, mode.inLoop) && BreakFirst(b, mode.inLoop)
    ensures
      var m := Interpret(b, at, fail, ret, mode, Telling(b, mode.inLoop) + (Rest(b, mode.inLoop) + more));
      m.end == EndOf(ToldLeaves(b, mode.inLoop)) && m.rest == more
    decreases b, 0
  {
    hide Interpret; hide InterpretStmt; hide LinesOf; hide Lines; hide Telling; hide TellingOf; hide Rest; hide RestOf;
    hide Finishing; hide FinishingOf; hide LeavesBlock; hide Regular; hide RegularStmt; hide BreakFirst;
    hide BreakFirstOf; hide ToldLeaves; hide ToldLeavesOf;
    ToldCons(b, mode.inLoop, more);
    var l, st, rest := mode.inLoop, b.head, b.tail;
    var rs := Telling(b, l) + (Rest(b, l) + more);
    var mid := at + |LinesOf(st)|;
    InterpretCons(b, at, fail, ret, mode, rs);
    if !RegularStmt(st, l) {
      var next := if ToldLeavesOf(st, l) then more else Finishing(rest, l) + more;
      ToldFinishesStmt(st, at, fail, ret, mode, next);
      var m := InterpretStmt(st, at, fail, ret, mode, rs);
      if !ToldLeavesOf(st, l) {
        Finishes(rest, mid, m.fail, m.ret, mode, more);
      }
    } else {
      RegularStays(st, l);
      FinishesStmt(st, at, fail, ret, mode, Telling(rest, l) + (Rest(rest, l) + more));
      var m := InterpretStmt(st, at, fail, ret, mode, rs);
      ToldFinishes(rest, mid, m.fail, m.ret, mode, more);
    }
  }

  lemma {:induction false} ToldFinishesStmt(st: Stmt, at: nat, fail: bool, ret: bool, mode: Mode, more: seq<bool>)
    requires !RegularStmt(st, mode.inLoop) && BreakFirstOf(st, mode.inLoop)
    ensures
      var m := InterpretStmt(st, at, fail, ret, mode, TellingOf(st, mode.inLoop) + (RestOf(st, mode.inLoop) + more));
      m.end == EndOf(ToldLeavesOf(st, mode.inLoop)) && m.rest == more
    decreases st, 1
  {
    hide Interpret; hide InterpretStmt;
    if st.Branch? {
      ToldFinishesBranch(st, at, fail, ret, mode, more);
    } else {
      ToldFinishesLoop(st, at, fail, ret, mode, more);
    }
  }

  lemma {:induction false} ToldFinishesBranch(st: Stmt, at: nat, fail: bool, ret: bool, mode: Mode, more: seq<bool>)
    requires st.Branch? && !RegularStmt(st, mode.inLoop) && BreakFirstOf(st, mode.inLoop)
    ensures
      var m := InterpretStmt(st, at, fail, ret, mode, TellingOf(st, mode.inLoop) + (RestOf(st, mode.inLoop) + more));
      m.end == EndOf(ToldLeavesOf(st, mode.inLoop)) && m.rest == more
    decreases st, 0
  {
    hide Interpret; hide Regular; hide BreakFirst; hide Telling; hide Rest; hide ToldLeaves; hide NoDirectBreak;
    hide ToBreak; hide Lines; hide InterpretStmt; hide TellingOf; hide RestOf; hide ToldLeavesOf; hide RegularStmt;
    hide BreakFirstOf;
    var l, thn, els := mode.inLoop, st.thn, st.els;
    var rs, mid := TellingOf(st, l) + (RestOf(st, l) + more), at + 3 + |Lines(thn)|;
    BranchUnfold(st, at, fail, ret, mode, rs);
    if !Regular(thn, l) {
      ToldInside(st, l);
      HeadTail(st.inverted, Telling(thn, l), Rest(thn, l) + more);
      ToldFinishes(thn, at + 2, false, false, mode, more);
    } else if l && !NoDirectBreak(thn) {
      ToldHere(st, l);
      HeadTail(st.inverted, ToBreak(thn), more);
      ToBreakLeaves(thn, at + 2, false, false, mode, more);
    } else if !Regular(els, l) {
      ToldInside(st, l);
      HeadTail(!st.inverted, Telling(els, l), Rest(els, l) + more);
      ToldFinishes(els, mid, false, false, mode, more);
    } else {
      ToldHere(st, l);
      HeadTail(!st.inverted, ToBreak(els), more);
      ToBreakLeaves(els, mid, false, false, mode, more);
    }
  }

  lemma HeadTail(x: bool, a: seq<bool>, b: seq<bool>)
    ensures (([x] + a) + b)[0] == x && (([x] + a) + b)[1..] == a + b && [] + b == b
  {
  }

  /** The telling place is within a part of the branch. */
  lemma ToldInside(st: Stmt, l: bool)
    requires st.Branch? && !RegularStmt(st, l) && BreakFirstOf(st, l)
    requires !Regular(st.thn, l) || ((l ==> NoDirectBreak(st.thn)) && !Regular(st.els, l))
    ensures
      var part := if !Regular(st.thn, l) then st.thn else st.els;
      && !Regular(part, l) && BreakFirst(part, l) && RestOf(st, l) == Rest(part, l)
      && TellingOf(st, l) == [if part == st.thn then st.inverted else !st.inverted] + Telling(part, l)
      && ToldLeavesOf(st, l) == ToldLeaves(part, l)
  {
    hide Telling; hide Rest; hide ToldLeaves; hide BreakFirst;
  }

  /** The telling place is a `break` that is a statement of a part of the branch. */
  lemma ToldHere(st: Stmt, l: bool)
    requires st.Branch? && !RegularStmt(st, l) && BreakFirstOf(st, l) && Regular(st.thn, l)
    requires (l && !NoDirectBreak(st.thn)) || Regular(st.els, l)
    ensures l && RestOf(st, l) == [] && ToldLeavesOf(st, l) && EndOf(true) == Broken
    ensures !NoDirectBreak(st.thn) ==> TellingOf(st, l) == [st.inverted] + ToBreak(st.thn)
    ensures NoDirectBreak(st.thn) ==> !NoDirectBreak(st.els) && TellingOf(st, l) == [!st.inverted] + ToBreak(st.els)
  {
    hide Telling; hide Rest; hide ToldLeaves; hide BreakFirst; hide ToBreak;
  }

  lemma {:induction false} ToldFinishesLoop(st: Stmt, at: nat, fail: bool, ret: bool, mode: Mode, more: seq<bool>)
    requires st.Loop? && !RegularStmt(st, mode.inLoop) && BreakFirstOf(st, mode.inLoop)
    ensures
      var m := InterpretStmt(st, at, fail, ret, mode, TellingOf(st, mode.inLoop) + (RestOf(st, mode.inLoop) + more));
      m.end == Completed && m.rest == more
    decreases st, 0
  {
    hide Interpret; hide Regular; hide BreakFirst; hide Telling; hide Rest; hide ToldLeaves;
    var body, until := st.body, st.until;
    var rs := TellingOf(st, mode.inLoop) + (RestOf(st, mode.inLoop) + more);
    var last := if ToldLeaves(body, true) then more else [!until] + more;
    assert rs[0] == until && rs[1..] == Telling(body, true) + (Rest(body, true) + last);
    ToldFinishes(body, at + 2, false, false, mode.(inLoop := true), last);
    if !ToldLeaves(body, true) {
      assert last[0] == !until && last[1..] == more;
    }
  }

  lemma {:induction false} ToBreakLeaves(b: Block, at: nat, fail: bool, ret: bool, mode: Mode, more: seq<bool>)
    requires mode.inLoop && Regular(b, true) && !NoDirectBreak(b)
    ensures
      var m := Interpret(b, at, fail, ret, mode, ToBreak(b) + more);
      m.end == Broken && m.rest == more
    decreases b
  {
    var st, rest := b.head, b.tail;
    if st.BreakLoop? {
      assert ToBreak(b) + more == more;
      assert InterpretStmt(st, at, fail, ret, mode, more).end == Broken;
    } else {
      hide InterpretStmt; hide FinishingOf; hide LinesOf; hide RegularStmt;
      var rs := FinishingOf(st, true) + (ToBreak(rest) + more);
      assert ToBreak(b) + more == rs;
      RegularStays(st, true);
      FinishesStmt(st, at, fail, ret, mode, ToBreak(rest) + more);
      var m := InterpretStmt(st, at, fail, ret, mode, rs);
      ToBreakLeaves(rest, at + |LinesOf(st)|, m.fail, m.ret, mode, more);
    }
  }

  /** Without a loop around it a block is not left by `break`. */
  lemma {:induction false} NoLoopToLeave(b: Block, at: nat, fail: bool, ret: bool, ignore: bool, rs: seq<bool>)
    ensures Interpret(b, at, fail, ret, Mode(ignore, false), rs).end != Broken
    decreases b, 0
  {
    if b.Cons? {
      StmtNotLeft(b.head, at, fail, ret, ignore, rs);
      var m := InterpretStmt(b.head, at, fail, ret, Mode(ignore, false), rs);
      NoLoopToLeave(b.tail, at + |LinesOf(b.head)|, m.fail, m.ret, ignore, m.rest);
    }
  }

  lemma {:induction false} StmtNotLeft(st: Stmt, at: nat, fail: bool, ret: bool, ignore: bool, rs: seq<bool>)
    ensures InterpretStmt(st, at, fail, ret, Mode(ignore, false), rs).end != Broken
    decreases st, |rs|
  {
    if rs != [] && st.Branch? {
      NoLoopToLeave(st.thn, at + 2, false, false, ignore, rs[1..]);
      NoLoopToLeave(st.els, at + 3 + |Lines(st.thn)|, false, false, ignore, rs[1..]);
    } else if rs != [] && st.Loop? {
      hide Interpret;
      var m := Interpret(st.body, at + 2, false, false, Mode(ignore, true), rs[1..]);
      StmtNotLeft(st, at, m.fail, false, ignore, m.rest);
    }
  }

  /** A block that completes has returned no error, unless failures are ignored. */
  lemma {:induction false} CompletesWell(b: Block, at: nat, fail: bool, ret: bool, mode: Mode, rs: seq<bool>)
    requires !mode.ignore && Interpret(b, at, fail, ret, mode, rs).end == Completed
    ensures Interpret(b, at, fail, ret, mode, rs).ret == (b == Nil && ret)
    decreases b, 0
  {
    if b.Cons? {
      var m := InterpretStmt(b.head, at, fail, ret, mode, rs);
      StmtCompletesWell(b.head, at, fail, ret, mode, rs);
      CompletesWell(b.tail, at + |LinesOf(b.head)|, m.fail, m.ret, mode, m.rest);
    }
  }

  lemma {:induction false} StmtCompletesWell(st: Stmt, at: nat, fail: bool, ret: bool, mode: Mode, rs: seq<bool>)
    requires !mode.ignore && InterpretStmt(st, at, fail, ret, mode, rs).end == Completed
    ensures !InterpretStmt(st, at, fail, ret, mode, rs).ret
    decreases |rs|
  {
    hide Interpret;
    if rs != [] && st.Loop? && st.until == rs[0] {
      var m := Interpret(st.body, at + 2, false, false, mode.(inLoop := true), rs[1..]);
      if m.end == Completed {
        StmtCompletesWell(st, at, m.fail, false, mode, m.rest);
      }
    }
  }
}
