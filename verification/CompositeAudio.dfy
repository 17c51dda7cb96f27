/**
  The composite audio device of `audio_comp.c`: one operation over several devices, with
  roll-back.  Start and stop, resume and pause, reserve and release are the same code with
  different operations, so they are modelled once, as switching devices on and off.
*/
module CompositeAudio {

  const ENOTTY: int := -25

  /** How one device answers: which operations it has and what they return. */
  datatype Answer = Answer(hasOn: bool, hasOff: bool, on: int, off: int)

  predicate OnFails(a: Answer) {
    a.hasOn && a.on < 0 && a.on != ENOTTY
  }

  predicate OnSucceeds(a: Answer) {
    a.hasOn && a.on >= 0
  }

  predicate OffFails(a: Answer) {
    a.hasOff && a.off < 0 && a.off != ENOTTY
  }

  predicate OffSucceeds(a: Answer) {
    a.hasOff && a.off >= 0
  }

  /** An operation fails, succeeds, or is not there: a device without it, or one that returns -25. */
  lemma Outcomes(a: Answer)
    ensures !(OnFails(a) && OnSucceeds(a)) && !(OffFails(a) && OffSucceeds(a))
    ensures !OnFails(a) && !OnSucceeds(a) <==> !a.hasOn || a.on == -25
    ensures !OffFails(a) && !OffSucceeds(a) <==> !a.hasOff || a.off == -25
    ensures (OnFails(a) ==> a.on < 0) && (OffFails(a) ==> a.off < 0)
  {
  }

  /** The first device at or after `i` that fails to switch on, or the number of devices. */
  function FirstFailure(ans: seq<Answer>, i: nat): (f: nat)
    requires i <= |ans|
    ensures i <= f <= |ans| && (f < |ans| ==> OnFails(ans[f]))
    ensures forall k :: i <= k < f ==> !OnFails(ans[k])
    decreases |ans| - i
  {
    if i == |ans| || OnFails(ans[i]) then i else FirstFailure(ans, i + 1)
  }

  /** The result of the last of the first `n` devices that switched on, or `initial` if none did. */
  function OnResult(ans: seq<Answer>, n: nat, initial: int): (r: int)
    requires n <= |ans|
    ensures (r == initial && forall i :: 0 <= i < n ==> !OnSucceeds(ans[i]))
         || (exists i :: 0 <= i < n && OnSucceeds(ans[i]) && r == ans[i].on
                        && forall k :: i < k < n ==> !OnSucceeds(ans[k]))
  {
    if n == 0 then initial
    else if OnSucceeds(ans[n - 1]) then ans[n - 1].on
    else OnResult(ans, n - 1, initial)
  }

  /** What switching off returns for the devices from `i` on: the first failure, or else the first success. */
  function OffResult(ans: seq<Answer>, i: nat, initial: int): (r: int)
    requires i <= |ans|
    decreases |ans| - i
  {
    if i == |ans| then initial
    else
      var later := OffResult(ans, i + 1, initial);
      if OffFails(ans[i]) || (OffSucceeds(ans[i]) && (later == ENOTTY || later >= 0)) then ans[i].off else later
  }

  lemma {:induction false} OffResultExactly(ans: seq<Answer>, i: nat, n: nat, initial: int)
    requires i <= n < |ans| && (initial == ENOTTY || initial >= 0)
    ensures (OffResult(ans, i, initial) < 0 && OffResult(ans, i, initial) != ENOTTY)
            <==> exists k :: i <= k < |ans| && OffFails(ans[k])
    ensures OffFails(ans[n]) && (forall k :: i <= k < n ==> !OffFails(ans[k])) ==>
              OffResult(ans, i, initial) == ans[n].off
    ensures (forall k :: i <= k < |ans| ==> !OffFails(ans[k])) ==>
              OffSucceeds(ans[n]) && (forall k :: i <= k < n ==> !OffSucceeds(ans[k])) ==>
                OffResult(ans, i, initial) == ans[n].off
    decreases |ans| - i
  {
    var r := OffResult(ans, i, initial);
    if i + 1 < |ans| {
      OffResultExactly(ans, i + 1, if n == i then i + 1 else n, initial);
      assert (exists k :: i <= k < |ans| && OffFails(ans[k])) <==>
             OffFails(ans[i]) || exists k :: i + 1 <= k < |ans| && OffFails(ans[k]);
    }
  }

  lemma {:induction false} NothingReturned(ans: seq<Answer>, i: nat, initial: int)
    requires i <= |ans| && forall k :: i <= k < |ans| ==> !OffFails(ans[k]) && !OffSucceeds(ans[k])
    ensures OffResult(ans, i, initial) == initial
    decreases |ans| - i
  {
    if i < |ans| {
      NothingReturned(ans, i + 1, initial);
    }
  }

  lemma FailureReturned(ans: seq<Answer>, initial: int)
    requires initial == ENOTTY || initial >= 0
    ensures
      var r := OffResult(ans, 0, initial);
      && ((r < 0 && r != ENOTTY) <==> exists i :: 0 <= i < |ans| && OffFails(ans[i]))
      && forall i :: 0 <= i < |ans| && OffFails(ans[i]) && (forall k :: 0 <= k < i ==> !OffFails(ans[k])) ==>
           r == ans[i].off
  {
    if |ans| > 0 {
      OffResultExactly(ans, 0, 0, initial);
    }
    forall n | 0 <= n < |ans| && OffFails(ans[n]) && forall k :: 0 <= k < n ==> !OffFails(ans[k])
      ensures OffResult(ans, 0, initial) == ans[n].off
    {
      OffResultExactly(ans, 0, n, initial);
    }
  }

  datatype Call = On(device: nat) | Off(device: nat)

  /** The first `n` devices are asked to switch on, in order. */
  function OnCalls(ans: seq<Answer>, n: nat): (c: seq<Call>)
    requires n <= |ans|
  {
    if n == 0 then [] else OnCalls(ans, n - 1) + if ans[n - 1].hasOn then [On(n - 1)] else []
  }

  /** The devices below `n` are asked to switch off, the highest first. */
  function OffCalls(ans: seq<Answer>, n: nat): (c: seq<Call>)
    requires n <= |ans|
  {
    if n == 0 then [] else (if ans[n - 1].hasOff then [Off(n - 1)] else []) + OffCalls(ans, n - 1)
  }

  /** Which devices are on after an attempt to switch all on. */
  function AfterOn(ans: seq<Answer>, active: seq<bool>): (r: seq<bool>)
    requires |ans| == |active|
    ensures |r| == |active|
  {
    var f := FirstFailure(ans, 0);
    seq(|active|, i requires 0 <= i < |active| =>
      if f == |ans| then active[i] || OnSucceeds(ans[i])
      else if i >= f then active[i]
      else if OffSucceeds(ans[i]) then false
      else active[i] || OnSucceeds(ans[i]))
  }

  /** The first `n` devices have been switched on, as far as they do that. */
  predicate SoFar(ans: seq<Answer>, before: seq<bool>, now: seq<bool>, n: nat) {
    && |ans| == |before| == |now| && n <= |ans|
    && (forall k :: 0 <= k < n ==> now[k] == (before[k] || OnSucceeds(ans[k])))
    && (forall k :: n <= k < |ans| ==> now[k] == before[k])
  }

  lemma AllOn(ans: seq<Answer>, before: seq<bool>, now: seq<bool>)
    requires SoFar(ans, before, now, |ans|) && FirstFailure(ans, 0) == |ans|
    ensures now == AfterOn(ans, before)
  {
    hide FirstFailure;
  }

  lemma RolledBack(ans: seq<Answer>, before: seq<bool>, now: seq<bool>, after: seq<bool>)
    requires FirstFailure(ans, 0) < |ans| && SoFar(ans, before, now, FirstFailure(ans, 0)) && |after| == |now|
    requires forall k :: 0 <= k < |ans| ==> after[k] == (now[k] && !(k < FirstFailure(ans, 0) && OffSucceeds(ans[k])))
    ensures after == AfterOn(ans, before)
  {
    hide FirstFailure;
  }

  function AfterOff(ans: seq<Answer>, active: seq<bool>): (r: seq<bool>)
    requires |ans| == |active|
    ensures |r| == |active|
  {
    seq(|active|, i requires 0 <= i < |active| => active[i] && !OffSucceeds(ans[i]))
  }

  class Composite {
    const active: array<bool>
    var log: seq<Call>

    constructor (n: nat)
      ensures active.Length == n && fresh(active) && log == []
      ensures forall i :: 0 <= i < n ==> !active[i]
    {
      active := new bool[n](_ => false);
      log := [];
    }

    /** `audio_comp_start`, `audio_comp_resume`, `audio_comp_reserve`; `initial` is -ENOTTY or OK. */
    method SwitchOn(ans: seq<Answer>, initial: int) returns (ret: int)
      requires |ans| == active.Length
      modifies active, this`log
      ensures active[..] == AfterOn(ans, old(active[..]))
      ensures
        var f := FirstFailure(ans, 0);
        if f == |ans| then log == old(log) + OnCalls(ans, f) && ret == OnResult(ans, f, initial)
        else log == old(log) + OnCalls(ans, f + 1) + OffCalls(ans, f) && ret == ans[f].on
    {
      hide FirstFailure; hide AfterOn; hide OffCalls;
      ghost var before := active[..];
      ret := initial;
      var i := 0;
      while i < |ans|
        invariant i <= |ans| && FirstFailure(ans, 0) >= i
        invariant SoFar(ans, before, active[..], i)
        invariant log == old(log) + OnCalls(ans, i)
        invariant ret == OnResult(ans, i, initial)
      {
        if ans[i].hasOn {
          log := log + [On(i)];
          if ans[i].on != ENOTTY {
            ret := ans[i].on;
            if ret >= 0 {
              active[i] := true;
            } else {
              assert FirstFailure(ans, 0) == i;
              ghost var now := active[..];
              RollBack(ans, i);
              RolledBack(ans, before, now, active[..]);
              return;
            }
          }
        }
        i := i + 1;
      }
      AllOn(ans, before, active[..]);
    }

    method RollBack(ans: seq<Answer>, n: nat)
      requires |ans| == active.Length && n <= |ans|
      modifies active, this`log
      ensures forall k :: 0 <= k < |ans| ==> active[k] == (old(active[k]) && !(k < n && OffSucceeds(ans[k])))
      ensures log == old(log) + OffCalls(ans, n)
    {
      var i := n;
      while i > 0
        invariant 0 <= i <= n
        invariant forall k :: 0 <= k < |ans| ==> active[k] == (old(active[k]) && !(i <= k < n && OffSucceeds(ans[k])))
        invariant log + OffCalls(ans, i) == old(log) + OffCalls(ans, n)
      {
        i := i - 1;
        if ans[i].hasOff {
          log := log + [Off(i)];
          if ans[i].off >= 0 {
            active[i] := false;
          }
        }
      }
    }

    /** `audio_comp_stop`, `audio_comp_pause`, `audio_comp_release`, `audio_comp_shutdown`. */
    method SwitchOff(ans: seq<Answer>, initial: int) returns (ret: int)
      requires |ans| == active.Length && (initial == ENOTTY || initial >= 0)
      modifies active, this`log
      ensures active[..] == AfterOff(ans, old(active[..]))
      ensures log == old(log) + OffCalls(ans, |ans|)
      ensures ret == OffResult(ans, 0, initial)
      ensures (ret < 0 && ret != ENOTTY) <==> exists i :: 0 <= i < |ans| && OffFails(ans[i])
      ensures forall i :: 0 <= i < |ans| && OffFails(ans[i]) && (forall k :: 0 <= k < i ==> !OffFails(ans[k])) ==>
        ret == ans[i].off
    {
      ret := initial;
      var i := |ans|;
      while i > 0
        invariant 0 <= i <= |ans|
        invariant forall k :: 0 <= k < |ans| ==> active[k] == (old(active[k]) && !(i <= k && OffSucceeds(ans[k])))
        invariant log + OffCalls(ans, i) == old(log) + OffCalls(ans, |ans|)
        invariant ret == OffResult(ans, i, initial)
      {
        i := i - 1;
        if ans[i].hasOff {
          log := log + [Off(i)];
          var tmp := ans[i].off;
          if tmp >= 0 {
            active[i] := false;
          }
          if tmp != ENOTTY && (tmp < 0 || ret == ENOTTY || ret >= 0) {
            ret := tmp;
          }
        }
      }
      FailureReturned(ans, initial);
    }
  }

  /** The roll-back calls each device below `n` that can switch off, once each, the highest first. */
  lemma {:induction false} OffCallsExactly(ans: seq<Answer>, n: nat)
    requires n <= |ans|
    ensures forall k: nat :: Off(k) in OffCalls(ans, n) <==> k < n && ans[k].hasOff
    ensures forall c :: c in OffCalls(ans, n) ==> c.Off? && c.device < n
    ensures forall i, j :: 0 <= i < j < |OffCalls(ans, n)| ==> OffCalls(ans, n)[i].device > OffCalls(ans, n)[j].device
  {
    if n > 0 {
      OffCallsExactly(ans, n - 1);
      var rest := OffCalls(ans, n - 1);
      assert forall i :: 0 <= i < |rest| ==> rest[i] in rest;
    }
  }

  /** Switching on calls each device below `n` that can switch on, once each, the lowest first. */
  lemma {:induction false} OnCallsExactly(ans: seq<Answer>, n: nat)
    requires n <= |ans|
    ensures forall k: nat :: On(k) in OnCalls(ans, n) <==> k < n && ans[k].hasOn
    ensures forall c :: c in OnCalls(ans, n) ==> c.On? && c.device < n
    ensures forall i, j :: 0 <= i < j < |OnCalls(ans, n)| ==> OnCalls(ans, n)[i].device < OnCalls(ans, n)[j].device
  {
    if n > 0 {
      OnCallsExactly(ans, n - 1);
      var rest := OnCalls(ans, n - 1);
      assert forall i :: 0 <= i < |rest| ==> rest[i] in rest;
    }
  }

  /**
    All or nothing.  When every device was off and one fails to switch on, all are off again
    if and only if each device that had succeeded can be switched off and does so.
  */
  lemma FailureUndoesExactly(ans: seq<Answer>, active: seq<bool>)
    requires |ans| == |active| && FirstFailure(ans, 0) < |ans| && forall i :: 0 <= i < |active| ==> !active[i]
    ensures (forall i :: 0 <= i < |active| ==> !AfterOn(ans, active)[i])
            <==> forall i :: 0 <= i < FirstFailure(ans, 0) && OnSucceeds(ans[i]) ==> OffSucceeds(ans[i])
  {
    var f, after := FirstFailure(ans, 0), AfterOn(ans, active);
    if forall i :: 0 <= i < |active| ==> !after[i] {
      forall i | 0 <= i < f && OnSucceeds(ans[i]) ensures OffSucceeds(ans[i]) {
        assert !after[i];
      }
    }
  }

  /**
    The participating devices take part in both operations and switch off without fail; the others
    do not switch on.
  */
  predicate Consistent(ans: seq<Answer>, taking: set<nat>) {
    forall i :: 0 <= i < |ans| ==>
      if i in taking then ans[i].hasOn && ans[i].on != ENOTTY && OffSucceeds(ans[i])
      else !ans[i].hasOn || ans[i].on == ENOTTY
  }

  /** The participating devices switch off without fail. */
  predicate AllSwitchOff(ans: seq<Answer>, taking: set<nat>) {
    forall i :: 0 <= i < |ans| && i in taking ==> OffSucceeds(ans[i])
  }

  /** All participating devices are on, or all are off; the others are off. */
  predicate Uniform(active: seq<bool>, taking: set<nat>, on: bool) {
    forall i :: 0 <= i < |active| ==> active[i] == (on && i in taking)
  }

  lemma OnFromOff(ans: seq<Answer>, active: seq<bool>, taking: set<nat>)
    requires |ans| == |active| && Consistent(ans, taking) && Uniform(active, taking, false)
    ensures Uniform(AfterOn(ans, active), taking, FirstFailure(ans, 0) == |ans|)
  {
  }

  /** Switching on what is on already is safe exactly when no device fails after a participating one. */
  lemma OnAgainExactly(ans: seq<Answer>, active: seq<bool>, taking: set<nat>)
    requires |ans| == |active| && Consistent(ans, taking) && Uniform(active, taking, true)
    ensures
      var after := AfterOn(ans, active);
      (exists on :: Uniform(after, taking, on)) <==>
      FirstFailure(ans, 0) == |ans| || forall i :: 0 <= i < FirstFailure(ans, 0) ==> i !in taking
  {
    var f, after := FirstFailure(ans, 0), AfterOn(ans, active);
    if f == |ans| || forall i :: 0 <= i < f ==> i !in taking {
      assert Uniform(after, taking, true);
    } else {
      var i :| 0 <= i < f && i in taking;
      assert !after[i] && after[f];
    }
  }

  /** The last device that switches on, which gives the result of the whole, returns OK and not a positive value. */
  predicate EndsWithOk(ans: seq<Answer>) {
    forall i :: 0 <= i < |ans| && OnSucceeds(ans[i]) && (forall k :: i < k < |ans| ==> !OnSucceeds(ans[k])) ==>
      ans[i].on == 0
  }

  /** Then, and only then, a start without failure is taken for one, if any device takes part. */
  lemma OkExactly(ans: seq<Answer>, taking: set<nat>)
    requires Consistent(ans, taking) && FirstFailure(ans, 0) == |ans| && exists i :: 0 <= i < |ans| && i in taking
    ensures OnResult(ans, |ans|, ENOTTY) == 0 <==> EndsWithOk(ans)
  {
    var j :| 0 <= j < |ans| && j in taking;
    assert OnSucceeds(ans[j]);
    var r := OnResult(ans, |ans|, ENOTTY);
    var i :| 0 <= i < |ans| && OnSucceeds(ans[i]) && r == ans[i].on
      && forall k :: i < k < |ans| ==> !OnSucceeds(ans[k]);
  }

  /** A device that switches on and off, and returns `on` when it is switched on. */
  function Returning(on: int): (a: Answer) {
    Answer(true, true, on, 0)
  }

  /**
    What happens otherwise: the first start puts all three devices on and returns 1, so that it
    is not taken for a start; a second start that fails at the middle device leaves one off.
  */
  lemma PositiveResultMixes()
    ensures
      var first, second := [Returning(0), Returning(0), Returning(1)], [Returning(0), Returning(-5), Returning(0)];
      && Consistent(first, {0, 1, 2}) && Consistent(second, {0, 1, 2}) && !EndsWithOk(first)
      && AfterOn(first, [false, false, false]) == [true, true, true] && OnResult(first, 3, ENOTTY) == 1
      && AfterOn(second, [true, true, true]) == [false, true, true]
  {
    var first, second := [Returning(0), Returning(0), Returning(1)], [Returning(0), Returning(-5), Returning(0)];
    assert FirstFailure(first, 3) == FirstFailure(first, 2) == FirstFailure(first, 1) == FirstFailure(first, 0) == 3;
    assert FirstFailure(second, 1) == FirstFailure(second, 0) == 1;
    assert OnSucceeds(first[2]) && first[2].on == 1;
  }

  /** What the upper half passes down: start and stop requests with the devices' answers. */
  datatype Request = Start(ans: seq<Answer>) | Stop(ans: seq<Answer>)

  /** The guard of the upper half: start only when stopped, stop only when started. */
  class Upper {
    const comp: Composite
    var started: bool

    constructor (n: nat)
      ensures fresh(comp) && fresh(comp.active) && comp.active.Length == n && !started
      ensures forall i :: 0 <= i < n ==> !comp.active[i]
    {
      comp := new Composite(n);
      started := false;
    }

    ghost predicate Valid(taking: set<nat>)
      reads this, comp, comp.active
    {
      Uniform(comp.active[..], taking, started)
    }

    /**
      Over any run of start and stop in which the last participating device returns OK, the
      participating devices are all started or all stopped, as `started` says.
    */
    method Run(requests: seq<Request>, ghost taking: set<nat>)
      requires Valid(taking)
      requires forall r :: r in requests ==> |r.ans| == comp.active.Length
      requires forall r :: r in requests && r.Start? ==>
        Consistent(r.ans, taking) && (FirstFailure(r.ans, 0) < |r.ans| || EndsWithOk(r.ans))
      requires forall r :: r in requests && r.Stop? ==> AllSwitchOff(r.ans, taking)
      modifies this, comp, comp.active
      ensures Valid(taking)
    {
      for k := 0 to |requests|
        invariant Valid(taking)
      {
        assert requests[k] in requests;
        match requests[k]
        case Start(ans) => StartAll(ans, taking);
        case Stop(ans) => StopAll(ans, taking);
      }
    }

    /** The devices are all on or all off after a start; the flag agrees exactly if the last of them returned OK. */
    method StartAll(ans: seq<Answer>, ghost taking: set<nat>)
      requires Valid(taking) && |ans| == comp.active.Length && Consistent(ans, taking)
      modifies this, comp, comp.active
      ensures Uniform(comp.active[..], taking, old(started) || FirstFailure(ans, 0) == |ans|)
      ensures Valid(taking) <==> old(started) || FirstFailure(ans, 0) < |ans| || EndsWithOk(ans)
      ensures old(started) ==> started
      ensures !old(started) ==>
        (started <==> FirstFailure(ans, 0) == |ans| && EndsWithOk(ans) && exists i :: 0 <= i < |ans| && i in taking)
    {
      if !started {
        OnFromOff(ans, comp.active[..], taking);
        if FirstFailure(ans, 0) == |ans| && exists i :: 0 <= i < |ans| && i in taking {
          OkExactly(ans, taking);
        }
        var ret := comp.SwitchOn(ans, ENOTTY);
        if ret == 0 {
          started := true;
        }
        FlagAgrees(comp.active[..], ans, taking, started);
      }
    }

    /**
      Stopping clears the flag whatever the devices answer, so the flag agrees with them exactly if
      every participating device that was on did switch off; with the flag off nothing is done.
    */
    method StopAll(ans: seq<Answer>, ghost taking: set<nat>)
      requires Valid(taking) && |ans| == comp.active.Length
      modifies this, comp, comp.active
      ensures !started && (old(started) ==> comp.active[..] == AfterOff(ans, old(comp.active[..])))
      ensures !old(started) ==> comp.active[..] == old(comp.active[..])
      ensures Valid(taking) <==> !old(started) || AllSwitchOff(ans, taking)
    {
      if started {
        var _ := comp.SwitchOff(ans, ENOTTY);
        started := false;
      }
    }
  }

  lemma FlagAgrees(active: seq<bool>, ans: seq<Answer>, taking: set<nat>, started: bool)
    requires |ans| == |active| && Consistent(ans, taking) && Uniform(active, taking, FirstFailure(ans, 0) == |ans|)
    requires started <==> FirstFailure(ans, 0) == |ans| && EndsWithOk(ans) && exists i :: 0 <= i < |ans| && i in taking
    ensures Uniform(active, taking, started) <==> FirstFailure(ans, 0) < |ans| || EndsWithOk(ans)
  {
    if FirstFailure(ans, 0) == |ans| && !EndsWithOk(ans) {
      var i :| 0 <= i < |ans| && OnSucceeds(ans[i]) && ans[i].on != 0;
      assert i in taking && active[i];
    }
  }
}
