/**
  The slave stack: `eMBPoll` with the one-place event queue of the port, which looks at the
  serial line only when no event is waiting.
*/
module ModbusSlave {
  import opened ModbusTable

  const BROADCAST: nat := 0

  type Pdu = seq<nat>

  /** A frame on the line: whether its checksum is good, the address, and function code with data. */
  datatype Frame = Frame(good: bool, address: nat, pdu: Pdu)

  datatype Event = NoEvent | Ready | FrameReceived | Execute | FrameSent

  /** `handle(h, pdu)` is the exception and the response that handler `h` produces. */
  datatype Config = Config(table: seq<Slot>, address: nat, handle: (nat, Pdu) -> (nat, Pdu))

  datatype Message = Message(address: nat, pdu: Pdu)

  /** The statics of `eMBPoll`, the receive buffer `wire` and the frames sent so far. */
  datatype State = State(queued: Event, wire: Frame, received: Frame, sent: seq<Message>)

  /** The function code with the error bit set, in 8 bits. */
  function ErrorCode(code: nat): nat {
    if code < 128 then code + 128 else code
  }

  /** The bit is set, whatever the other bits are. */
  lemma ErrorBit(code: bv8)
    ensures ErrorCode(code as nat) == (code | 0x80) as nat
    ensures code < 0x80 ==> ErrorCode(code as nat) == code as nat + 128
  {
    assert code < 0x80 ==> code | 0x80 == code + 0x80;
    assert code >= 0x80 ==> code | 0x80 == code;
  }

  /** What a request is answered with: the handler's response or the two-byte exception. */
  function Answer(c: Config, pdu: Pdu): (r: Pdu)
    requires pdu != []
  {
    var i := if pdu[0] == 0 then -1 else FullScan(c.table, pdu[0], 0);
    if i < 0 then [ErrorCode(pdu[0]), EX_ILLEGAL_FUNCTION]
    else
      var (exception, response) := c.handle(c.table[i].handler, pdu);
      if exception == EX_NONE then response else [ErrorCode(pdu[0]), exception]
  }

  predicate ForUs(c: Config, f: Frame) {
    f.good && (f.address == c.address || f.address == BROADCAST)
  }

  /** The replies owed for a list of frames: one for each good unicast frame to us, none for others. */
  function Owed(c: Config, fs: seq<Frame>): (ms: seq<Message>)
    requires forall f :: f in fs ==> f.pdu != []
  {
    if fs == [] then []
    else
      var f := fs[|fs| - 1];
      Owed(c, fs[..|fs| - 1])
      + if f.good && f.address == c.address then [Message(c.address, Answer(c, f.pdu))] else []
  }

  /** The reply part of EV_EXECUTE, with the early-stopping search. */
  function Reply(c: Config, f: Frame): (ms: seq<Message>)
    requires f.pdu != []
  {
    var i := Dispatch(c.table, f.pdu[0]);
    var (exception, response) :=
      if i < 0 then (EX_ILLEGAL_FUNCTION, f.pdu) else c.handle(c.table[i].handler, f.pdu);
    if f.address == BROADCAST then []
    else [Message(c.address, if exception != EX_NONE then [ErrorCode(f.pdu[0]), exception] else response)]
  }

  /** What happens on the serial line when it is looked at: the receiver starts, a frame is complete, or one is sent. */
  datatype Arrival = Nothing | Started | Arrives(frame: Frame) | Transmitted

  /** One call of `eMBPoll`. */
  function Poll(c: Config, st: State, arrives: Arrival): (r: State)
    requires st.queued == Execute ==> st.received.pdu != []
  {
    match st.queued
    case NoEvent =>
      (match arrives
       case Nothing => st
       case Started => st.(queued := Ready)
       case Arrives(f) => st.(wire := f, queued := FrameReceived)
       case Transmitted => st.(queued := FrameSent))
    case Ready => st.(queued := NoEvent)
    case FrameSent => st.(queued := NoEvent)
    case FrameReceived =>
      if !st.wire.good then st.(queued := NoEvent)
      else st.(received := st.wire, queued := if ForUs(c, st.wire) then Execute else NoEvent)
    case Execute => st.(queued := NoEvent, sent := st.sent + Reply(c, st.received))
  }

  /** All frames taken off the line have been answered, but for the one in work. */
  predicate Answered(c: Config, st: State, taken: seq<Frame>) {
    && (forall f :: f in taken ==> f.pdu != [])
    && match st.queued
       case FrameReceived => taken != [] && st.wire == taken[|taken| - 1] && st.sent == Owed(c, taken[..|taken| - 1])
       case Execute =>
         taken != [] && st.received == taken[|taken| - 1] && ForUs(c, st.received)
           && st.sent == Owed(c, taken[..|taken| - 1])
       case _ => st.sent == Owed(c, taken)
  }

  lemma ReplyIsOwed(c: Config, k: nat, f: Frame)
    requires InUse(c.table, k) && f.pdu != []
    ensures Reply(c, f) == if f.address == BROADCAST then [] else [Message(c.address, Answer(c, f.pdu))]
  {
    if f.pdu[0] != 0 {
      InUseDispatch(c.table, k, f.pdu[0]);
    }
  }

  /** The frames that a run takes off the line. */
  function Taken(c: Config, st: State, arrivals: seq<Arrival>): (fs: seq<Frame>)
    requires st.queued == Execute ==> st.received.pdu != []
    requires st.queued == FrameReceived ==> st.wire.pdu != []
    requires forall a :: a in arrivals && a.Arrives? ==> a.frame.pdu != []
    decreases |arrivals|
  {
    if arrivals == [] then []
    else TakenNow(st, arrivals[0]) + Taken(c, Poll(c, st, arrivals[0]), arrivals[1..])
  }

  function Run(c: Config, st: State, arrivals: seq<Arrival>): (r: State)
    requires st.queued == Execute ==> st.received.pdu != []
    requires st.queued == FrameReceived ==> st.wire.pdu != []
    requires forall a :: a in arrivals && a.Arrives? ==> a.frame.pdu != []
    decreases |arrivals|
  {
    if arrivals == [] then st else Run(c, Poll(c, st, arrivals[0]), arrivals[1..])
  }

  /** The frame that a poll takes off the line. */
  function TakenNow(st: State, a: Arrival): (fs: seq<Frame>) {
    if st.queued == NoEvent && a.Arrives? then [a.frame] else []
  }

  lemma PollKeepsAnswered(c: Config, k: nat, st: State, taken: seq<Frame>, a: Arrival)
    requires InUse(c.table, k) && c.address != BROADCAST && Answered(c, st, taken)
    requires a.Arrives? ==> a.frame.pdu != []
    ensures Answered(c, Poll(c, st, a), taken + TakenNow(st, a))
  {
    hide Reply; hide Answer; hide InUse;
    var all := taken + TakenNow(st, a);
    assert all[..|taken|] == taken;
    assert TakenNow(st, a) == [] ==> all == taken;
    if st.queued == Execute {
      ReplyIsOwed(c, k, st.received);
    }
  }

  /**
    Over any run of polls with a table without holes, every good unicast frame for this slave
    gets exactly one reply, in order, a broadcast and any other frame gets none, and at most
    the last frame taken is still to be answered.
  */
  lemma {:induction false} EveryFrameAnswered(c: Config, k: nat, st: State, taken: seq<Frame>, arrivals: seq<Arrival>)
    requires InUse(c.table, k) && c.address != BROADCAST && Answered(c, st, taken)
    requires forall a :: a in arrivals && a.Arrives? ==> a.frame.pdu != []
    ensures Answered(c, Run(c, st, arrivals), taken + Taken(c, st, arrivals))
    decreases |arrivals|
  {
    hide Reply; hide Answer; hide Answered; hide InUse; hide Poll;
    AnsweredFrames(c, st, taken);
    if arrivals == [] {
      assert taken + [] == taken;
    } else {
      var a := arrivals[0];
      assert a in arrivals;
      PollKeepsAnswered(c, k, st, taken, a);
      AnsweredFrames(c, Poll(c, st, a), taken + TakenNow(st, a));
      EveryFrameAnswered(c, k, Poll(c, st, a), taken + TakenNow(st, a), arrivals[1..]);
      assert taken + Taken(c, st, arrivals) == (taken + TakenNow(st, a)) + Taken(c, Poll(c, st, a), arrivals[1..]);
    }
  }

  lemma AnsweredFrames(c: Config, st: State, taken: seq<Frame>)
    requires Answered(c, st, taken)
    ensures st.queued == Execute ==> st.received.pdu != []
    ensures st.queued == FrameReceived ==> st.wire.pdu != []
  {
  }

  // ----- One frame, from the line to the reply -----

  /** A frame arrives while nothing is waiting, and two polls follow, whatever the line shows then. */
  function AfterFrame(c: Config, st: State, f: Frame, a1: Arrival, a2: Arrival): (r: State)
    requires st.queued == NoEvent && f.pdu != []
  {
    Poll(c, Poll(c, Poll(c, st, Arrives(f)), a1), a2)
  }

  /** A function that no handler is registered for. */
  lemma UnknownFunction(c: Config, st: State, f: Frame, a1: Arrival, a2: Arrival)
    requires st.queued == NoEvent && f.pdu != [] && f.pdu[0] < 128
    requires f.good && f.address == c.address != 0
    requires forall i :: 0 <= i < |c.table| && c.table[i].code != 0 ==> c.table[i].code != f.pdu[0]
    ensures
      var r := AfterFrame(c, st, f, a1, a2);
      r.queued == NoEvent && r.sent == st.sent + [Message(c.address, [f.pdu[0] + 128, 1])]
  {
    hide DispatchFrom;
  }

  /** A function whose first slot is `i`, with no free slot before it. */
  lemma KnownFunction(c: Config, st: State, f: Frame, i: nat, a1: Arrival, a2: Arrival)
    requires st.queued == NoEvent && f.pdu != [] && 0 < f.pdu[0] < 128
    requires f.good && f.address == c.address != 0
    requires i < |c.table| && c.table[i].code == f.pdu[0]
    requires forall j :: 0 <= j < i ==> c.table[j].code != 0 && c.table[j].code != f.pdu[0]
    ensures
      var r, (e, response) := AfterFrame(c, st, f, a1, a2), c.handle(c.table[i].handler, f.pdu);
      && r.queued == NoEvent
      && r.sent == st.sent + [Message(c.address, if e == 0 then response else [f.pdu[0] + 128, e])]
  {
    hide DispatchFrom;
    FirstDispatched(c.table, f.pdu[0], i, 0);
  }

  lemma {:induction false} FirstDispatched(table: seq<Slot>, code: nat, i: nat, k: nat)
    requires k <= i < |table| && table[i].code == code != 0
    requires forall j :: k <= j < i ==> table[j].code != 0 && table[j].code != code
    ensures DispatchFrom(table, code, k) == i
    decreases i - k
  {
    if k < i {
      FirstDispatched(table, code, i, k + 1);
    }
  }

  /** A broadcast is carried out and gets no reply. */
  lemma BroadcastUnanswered(c: Config, st: State, f: Frame, a1: Arrival, a2: Arrival)
    requires st.queued == NoEvent && f.pdu != [] && f.good && f.address == 0
    ensures AfterFrame(c, st, f, a1, a2).queued == NoEvent && AfterFrame(c, st, f, a1, a2).sent == st.sent
    ensures Poll(c, Poll(c, st, Arrives(f)), a1).queued == Execute
  {
    hide DispatchFrom;
  }

  /**
    The event of a ready port or a sent frame takes the next poll, which does nothing else: the poll
    after it takes what arrives then.
  */
  lemma EventsPass(c: Config, st: State, a: Arrival, a1: Arrival, a2: Arrival)
    requires st.queued == NoEvent && (a == Started || a == Transmitted)
    ensures
      var s1 := Poll(c, st, a);
      var s2 := Poll(c, s1, a1);
      && s1.queued != NoEvent && s1.queued != Execute && s1.sent == st.sent
      && s2 == st && Poll(c, s2, a2) == Poll(c, st, a2)
  {
  }

  /** A bad frame and a frame for another slave are dropped by the next poll. */
  lemma Dropped(c: Config, st: State, f: Frame, a1: Arrival)
    requires st.queued == NoEvent && (!f.good || f.address !in {c.address, 0})
    ensures
      var r := Poll(c, Poll(c, st, Arrives(f)), a1);
      r.queued == NoEvent && r.sent == st.sent
  {
  }

  /** The stack as it runs: static variables, the handler table and the one-place event queue. */
  class Stack {
    const handlers: Table
    const address: nat
    const handle: (nat, Pdu) -> (nat, Pdu)
    var queued: Event
    var wire: Frame
    var received: Frame
    var sent: seq<Message>

    constructor (handlers: Table, address: nat, handle: (nat, Pdu) -> (nat, Pdu))
      ensures this.handlers == handlers && this.address == address && this.handle == handle
      ensures queued == NoEvent && sent == []
    {
      this.handlers, this.address, this.handle := handlers, address, handle;
      queued, sent := NoEvent, [];
      wire, received := Frame(false, 0, []), Frame(false, 0, []);
    }

    ghost function Conf(): Config
      reads handlers.slots
    {
      Config(handlers.slots[..], address, handle)
    }

    ghost function Abstract(): State
      reads this
    {
      State(queued, wire, received, sent)
    }

    /** The search loop of EV_EXECUTE. */
    method Search(code: nat) returns (i: int)
      ensures i == Dispatch(handlers.slots[..], code)
    {
      var k := 0;
      while k < handlers.slots.Length
        invariant 0 <= k <= handlers.slots.Length
        invariant Dispatch(handlers.slots[..], code) == DispatchFrom(handlers.slots[..], code, k)
      {
        if handlers.slots[k].code == 0 {
          return -1;
        } else if handlers.slots[k].code == code {
          return k;
        }
        k := k + 1;
      }
      return -1;
    }

    /** `eMBPoll`. */
    method PollOnce(arrives: Arrival)
      requires queued == Execute ==> received.pdu != []
      modifies this
      ensures Abstract() == Poll(Conf(), old(Abstract()), arrives)
    {
      if queued == NoEvent {
        match arrives {
          case Nothing =>
          case Started => queued := Ready;
          case Arrives(f) => wire, queued := f, FrameReceived;
          case Transmitted => queued := FrameSent;
        }
        return;
      }
      var event := queued;
      queued := NoEvent;
      if event == FrameReceived {
        if wire.good {
          received := wire;
          if received.address == address || received.address == BROADCAST {
            queued := Execute;
          }
        }
      } else if event == Execute {
        var frame, code := received.pdu, received.pdu[0];
        var exception := EX_ILLEGAL_FUNCTION;
        var i := Search(code);
        if i >= 0 {
          var (e, response) := handle(handlers.slots[i].handler, frame);
          exception, frame := e, response;
        }
        if received.address != BROADCAST {
          if exception != EX_NONE {
            frame := [ErrorCode(code), exception];
          }
          sent := sent + [Message(address, frame)];
        }
      }
    }

    /** Any run of polls. */
    method PollAll(arrivals: seq<Arrival>)
      requires queued == Execute ==> received.pdu != []
      requires queued == FrameReceived ==> wire.pdu != []
      requires forall a :: a in arrivals && a.Arrives? ==> a.frame.pdu != []
      modifies this
      ensures Abstract() == Run(Conf(), old(Abstract()), arrivals)
    {
      hide Reply;
      for i := 0 to |arrivals|
        invariant queued == Execute ==> received.pdu != []
        invariant queued == FrameReceived ==> wire.pdu != []
        invariant Run(Conf(), Abstract(), arrivals[i..]) == Run(Conf(), old(Abstract()), arrivals)
      {
        assert arrivals[i] in arrivals && arrivals[i..][1..] == arrivals[i + 1..];
        PollOnce(arrivals[i]);
      }
    }
  }
}
