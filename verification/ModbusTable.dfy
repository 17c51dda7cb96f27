/**
  The function handler table of the Modbus stacks: registration and the early-stopping search.
*/
module ModbusTable {

  /** A slot is free when its function code and its handler are zero. */
  datatype Slot = Slot(code: nat, handler: nat)

  const EX_NONE: nat := 0
  const EX_ILLEGAL_FUNCTION: nat := 1

  const FREE := Slot(0, 0)

  /** The dispatch loop: it stops at the first slot without a function code. */
  function Dispatch(table: seq<Slot>, code: nat): (r: int)
    ensures -1 <= r < |table|
    ensures r >= 0 ==> table[r].code == code && code != 0
  {
    DispatchFrom(table, code, 0)
  }

  function DispatchFrom(table: seq<Slot>, code: nat, i: nat): (r: int)
    requires i <= |table|
    ensures r == -1 || i <= r < |table|
    ensures r >= 0 ==> table[r].code == code && code != 0
    decreases |table| - i
  {
    if i == |table| || table[i].code == 0 then -1
    else if table[i].code == code then i
    else DispatchFrom(table, code, i + 1)
  }

  /** The first slot for a function code in the whole table. */
  function FullScan(table: seq<Slot>, code: nat, i: nat): (r: int)
    requires i <= |table|
    ensures r == -1 || i <= r < |table|
    ensures r >= 0 ==> table[r].code == code && forall k :: i <= k < r ==> table[k].code != code
    ensures r < 0 ==> forall k :: i <= k < |table| ==> table[k].code != code
    decreases |table| - i
  {
    if i == |table| then -1 else if table[i].code == code then i else FullScan(table, code, i + 1)
  }

  /** The first `k` slots are in use by different handlers, the others are free. */
  predicate InUse(table: seq<Slot>, k: nat) {
    && k <= |table|
    && (forall i :: 0 <= i < k ==> table[i].code != 0 && table[i].handler != 0)
    && (forall i :: k <= i < |table| ==> table[i] == FREE)
    && (forall i, j :: 0 <= i < j < k ==> table[i].handler != table[j].handler)
  }

  /** First slot without a function code. */
  function FirstFree(table: seq<Slot>, i: nat): (f: nat)
    requires i <= |table|
    ensures i <= f <= |table| && (f < |table| ==> table[f].code == 0)
    ensures forall k :: i <= k < f ==> table[k].code != 0
    decreases |table| - i
  {
    if i == |table| || table[i].code == 0 then i else FirstFree(table, i + 1)
  }

  lemma {:induction false} DispatchStops(table: seq<Slot>, code: nat, i: nat)
    requires i <= |table| && code != 0
    ensures
      var f, r := FirstFree(table, i), FullScan(table, code, i);
      DispatchFrom(table, code, i) == if 0 <= r < f then r else -1
    decreases |table| - i
  {
    if i < |table| && table[i].code != 0 && table[i].code != code {
      DispatchStops(table, code, i + 1);
    }
  }

  /**
    The early stop is harmless for every function code if and only if no function code stands
    behind a free slot without also standing before it.
  */
  lemma EarlyStopExactly(table: seq<Slot>)
    ensures
      var f := FirstFree(table, 0);
      (forall code: nat :: code != 0 ==> Dispatch(table, code) == FullScan(table, code, 0)) <==>
      forall i :: f <= i < |table| && table[i].code != 0 ==> exists k :: 0 <= k < f && table[k].code == table[i].code
  {
    var f := FirstFree(table, 0);
    if forall code: nat :: code != 0 ==> Dispatch(table, code) == FullScan(table, code, 0) {
      forall i | f <= i < |table| && table[i].code != 0
        ensures exists k :: 0 <= k < f && table[k].code == table[i].code
      {
        var code := table[i].code;
        assert Dispatch(table, code) == FullScan(table, code, 0);
        DispatchStops(table, code, 0);
        var k := FullScan(table, code, 0);
        assert 0 <= k < f && table[k].code == code;
      }
    }
    if forall i :: f <= i < |table| && table[i].code != 0 ==> exists k :: 0 <= k < f && table[k].code == table[i].code {
      forall code: nat | code != 0 ensures Dispatch(table, code) == FullScan(table, code, 0) {
        DispatchStops(table, code, 0);
      }
    }
  }

  /** A table without holes is searched as a whole. */
  lemma InUseDispatch(table: seq<Slot>, k: nat, code: nat)
    requires InUse(table, k) && code != 0
    ensures Dispatch(table, code) == FullScan(table, code, 0)
  {
    DispatchStops(table, code, 0);
  }

  /** The first slot that is free or has this handler already. */
  ghost predicate Suits(s: seq<Slot>, handler: nat, i: int) {
    && 0 <= i < |s| && (s[i].handler == 0 || s[i].handler == handler)
    && forall k :: 0 <= k < i ==> s[k].handler != 0 && s[k].handler != handler
  }

  datatype Status = Ok | NoResources | Invalid

  /** `eMBRegisterCB` works on a table of fixed size; a null handler removes a registration. */
  class Table {
    const slots: array<Slot>

    constructor (n: nat)
      ensures slots.Length == n && fresh(slots) && InUse(slots[..], 0)
    {
      slots := new Slot[n](_ => FREE);
    }

    method Register(code: nat, handler: nat) returns (status: Status)
      modifies slots
      ensures !(0 < code <= 127) ==> status == Invalid && slots[..] == old(slots[..])
      ensures 0 < code <= 127 && handler != 0 ==>
        var s := old(slots[..]);
        if status == Ok then exists i :: Suits(s, handler, i) && slots[..] == s[i := Slot(code, handler)]
        else status == NoResources && slots[..] == s && forall i :: !Suits(s, handler, i)
      ensures 0 < code <= 127 && handler == 0 ==>
        var s := old(slots[..]);
        var r := FullScan(s, code, 0);
        status == Ok && slots[..] == if r < 0 then s else s[r := FREE]
    {
      if !(0 < code <= 127) {
        return Invalid;
      }
      ghost var s := slots[..];
      if handler != 0 {
        var i := 0;
        while i < slots.Length && slots[i].handler != 0 && slots[i].handler != handler
          invariant 0 <= i <= slots.Length
          invariant forall k :: 0 <= k < i ==> s[k].handler != 0 && s[k].handler != handler
        {
          i := i + 1;
        }
        if i == slots.Length {
          return NoResources;
        }
        assert Suits(s, handler, i);
        slots[i] := Slot(code, handler);
        assert slots[..] == s[i := Slot(code, handler)];
      } else {
        var i := 0;
        while i < slots.Length && slots[i].code != code
          invariant 0 <= i <= slots.Length
          invariant FullScan(s, code, 0) == FullScan(s, code, i)
        {
          i := i + 1;
        }
        if i < slots.Length {
          slots[i] := FREE;
          assert slots[..] == s[i := FREE];
        }
      }
      return Ok;
    }

    /** Registering, also with a wrong code, keeps the used slots a prefix with different handlers. */
    method RegisterAll(regs: seq<Slot>, ghost k0: nat) returns (ghost k: nat)
      requires InUse(slots[..], k0) && forall r :: r in regs ==> r.handler != 0
      modifies slots
      ensures InUse(slots[..], k) && k >= k0
    {
      k := k0;
      for n := 0 to |regs|
        invariant InUse(slots[..], k) && k >= k0
      {
        assert regs[n] in regs;
        ghost var s := slots[..];
        var status := Register(regs[n].code, regs[n].handler);
        if 0 < regs[n].code <= 127 {
          ghost var k' := StillInUse(s, slots[..], k, regs[n]);
          k := k';
        }
      }
    }
  }

  /** One registration. */
  lemma StillInUse(s: seq<Slot>, t: seq<Slot>, k: nat, r: Slot) returns (k': nat)
    requires InUse(s, k) && r.code != 0 && r.handler != 0
    requires t == s || exists i :: Suits(s, r.handler, i) && t == s[i := r]
    ensures InUse(t, k') && k <= k'
  {
    k' := k;
    if t != s {
      var i :| Suits(s, r.handler, i) && t == s[i := r];
      assert k < |s| ==> s[k] == FREE;
      if i >= k {
        k' := k + 1;
      }
    }
  }

  /** Two registrations and the removal of the first: the second handler is in the table but is not found. */
  method HiddenHandler(n: nat) returns (t: Table)
    requires n >= 2
    ensures fresh(t) && t.slots.Length == n
    ensures FullScan(t.slots[..], 4, 0) == 1 && Dispatch(t.slots[..], 4) == -1
  {
    t := new Table(n);
    ghost var s0 := t.slots[..];
    var a := t.Register(3, 1);
    assert Suits(s0, 1, 0);
    ghost var s1 := t.slots[..];
    assert s1 == s0[0 := Slot(3, 1)];
    var b := t.Register(4, 2);
    assert Suits(s1, 2, 1);
    ghost var s2 := t.slots[..];
    assert s2 == s1[1 := Slot(4, 2)];
    var c := t.Register(3, 0);
    assert FullScan(s2, 3, 0) == 0;
    ghost var s3 := t.slots[..];
    assert s3 == s2[0 := FREE];
    assert FullScan(s3, 4, 0) == FullScan(s3, 4, 1) == 1;
  }
}
