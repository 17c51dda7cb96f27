/**
  The master stack: the event switch of `eMBMasterPoll`, over a lossless FIFO of events and
  over the event word of the port, where each event is one bit and bits are fetched by priority.
*/
module ModbusMaster {
  import opened ModbusTable

  datatype Event = Ready | FrameReceived | Execute | FrameSent | ErrorProcess

  datatype ErrorType = RespondTimeout | ReceiveData | ExecuteFunction

  /** A frame buffer: function code at 0, data from 1. */
  type Buffer = nat -> nat

  /** `handle(h, d, b)` is the exception of handler `h` on buffer `b` for slave `d`. */
  datatype Config = Config(table: seq<Slot>, slaves: nat, handle: (nat, nat, Buffer) -> nat)

  /** What the transport and the request hold at a poll. */
  datatype Line = Line(good: bool, address: nat, received: Buffer, sending: Buffer, broadcast: bool)

  datatype Call = Called(handler: nat, slave: nat) | Succeeded | Failed(error: ErrorType, slave: nat) | Sent(slave: nat)

  /** The statics of the stack, the calls made so far and the releases of the run resource. */
  datatype Core = Core(frame: Buffer, error: ErrorType, dest: nat, calls: seq<Call>, releases: nat)

  /** The effect of one event: at most one event is posted, or the request is done. */
  datatype Reaction = Reaction(core: Core, post: seq<Event>, done: bool)

  /** Events that stand for a request still holding the run resource. */
  predicate IsTicket(e: Event) {
    e == FrameReceived || e == Execute || e == ErrorProcess
  }

  /** How many events, this one included, may still be handled for the request. */
  function Rank(e: Event): nat {
    match e
    case FrameReceived => 3
    case Execute => 2
    case ErrorProcess => 1
    case _ => 0
  }

  /** The calls of a broadcast to slaves 1 to `n`. */
  function Calls(h: nat, n: nat): (s: seq<Call>)
    ensures |s| == n && forall i :: 0 <= i < n ==> s[i] == Called(h, i + 1)
  {
    if n == 0 then [] else Calls(h, n - 1) + [Called(h, n)]
  }

  /** The exception and the statics that EV_MASTER_EXECUTE arrives at. */
  function Perform(c: Config, core: Core, line: Line): (r: (Core, nat))
    ensures r.0.releases == core.releases
  {
    var code := core.frame(0);
    var i := Dispatch(c.table, code);
    if code >= 128 then (core, core.frame(1))
    else if i < 0 then (core, EX_ILLEGAL_FUNCTION)
    else
      var h := c.table[i].handler;
      if line.broadcast then
        (core.(calls := core.calls + Calls(h, c.slaves), dest := if c.slaves == 0 then core.dest else c.slaves),
         if c.slaves == 0 then EX_ILLEGAL_FUNCTION else c.handle(h, c.slaves, core.frame))
      else (core.(calls := core.calls + [Called(h, core.dest)]), c.handle(h, core.dest, core.frame))
  }

  /**
    The switch. Each ticket is either passed on as an event of lower rank or released,
    never both, and no other event makes or releases one.
  */
  function Handle(c: Config, core: Core, e: Event, line: Line): (r: Reaction)
    ensures |r.post| + (if r.done then 1 else 0) == if IsTicket(e) then 1 else 0
    ensures r.post != [] ==> IsTicket(r.post[0]) && Rank(r.post[0]) < Rank(e)
    ensures r.core.releases == core.releases + if r.done then 1 else 0
  {
    match e
    case Ready => Reaction(core, [], false)
    case FrameReceived =>
      var frame := if line.good then line.received else core.frame;
      if line.good && line.address == core.dest then Reaction(core.(frame := frame), [Execute], false)
      else Reaction(core.(frame := frame, error := ReceiveData), [ErrorProcess], false)
    case Execute =>
      var (after, exception) := Perform(c, core, line);
      if exception != EX_NONE then Reaction(after.(error := ExecuteFunction), [ErrorProcess], false)
      else Reaction(after.(calls := after.calls + [Succeeded], releases := after.releases + 1), [], true)
    case FrameSent => Reaction(core.(frame := line.sending, calls := core.calls + [Sent(core.dest)]), [], false)
    case ErrorProcess =>
      Reaction(core.(frame := line.sending, calls := core.calls + [Failed(core.error, core.dest)],
                     releases := core.releases + 1), [], true)
  }

  // ----- Over a lossless FIFO -----

  /** An event and the request it belongs to; a posted event stays with its request. */
  datatype Tagged = Tagged(event: Event, id: nat)

  /** The ids of tickets entered from outside, released and handled, in order. */
  datatype Fifo = Fifo(core: Core, queue: seq<Tagged>, entered: seq<nat>, released: seq<nat>, handled: seq<nat>)

  datatype Action = Poll(line: Line) | Post(event: Event, id: nat)

  function Tag(es: seq<Event>, id: nat): (ts: seq<Tagged>) {
    seq(|es|, i requires 0 <= i < |es| => Tagged(es[i], id))
  }

  function FifoStep(c: Config, f: Fifo, a: Action): (r: Fifo) {
    match a
    case Post(e, id) =>
      f.(queue := f.queue + [Tagged(e, id)], entered := if IsTicket(e) then f.entered + [id] else f.entered)
    case Poll(line) =>
      if f.queue == [] then f
      else
        var t := f.queue[0];
        var r := Handle(c, f.core, t.event, line);
        Fifo(r.core, f.queue[1..] + Tag(r.post, t.id), f.entered,
             if r.done then f.released + [t.id] else f.released,
             if IsTicket(t.event) then f.handled + [t.id] else f.handled)
  }

  function FifoRun(c: Config, f: Fifo, actions: seq<Action>): (r: Fifo)
    decreases |actions|
  {
    if actions == [] then f
    else FifoStep(c, FifoRun(c, f, actions[..|actions| - 1]), actions[|actions| - 1])
  }

  /** The pending tickets of one id. */
  function Waiting(queue: seq<Tagged>, id: nat): (n: nat) {
    if queue == [] then 0
    else (if IsTicket(queue[0].event) && queue[0].id == id then 1 else 0) + Waiting(queue[1..], id)
  }

  /** The handling still possible for one id. */
  function Potential(queue: seq<Tagged>, id: nat): (n: nat)
    ensures n > 0 <==> Waiting(queue, id) > 0
  {
    if queue == [] then 0
    else (if queue[0].id == id then Rank(queue[0].event) else 0) + Potential(queue[1..], id)
  }

  function Count(ids: seq<nat>, id: nat): (n: nat) {
    if ids == [] then 0 else Count(ids[..|ids| - 1], id) + if ids[|ids| - 1] == id then 1 else 0
  }

  lemma {:induction false} QueueAppend(q: seq<Tagged>, ts: seq<Tagged>, id: nat)
    ensures Waiting(q + ts, id) == Waiting(q, id) + Waiting(ts, id)
    ensures Potential(q + ts, id) == Potential(q, id) + Potential(ts, id)
  {
    if q == [] {
      assert q + ts == ts;
    } else {
      assert (q + ts)[1..] == q[1..] + ts;
      QueueAppend(q[1..], ts, id);
    }
  }

  /** The request was released or is pending as often as it entered, and handled at most three times as often. */
  predicate Conserved(f: Fifo, id: nat) {
    && Count(f.entered, id) == Count(f.released, id) + Waiting(f.queue, id)
    && Count(f.handled, id) + Potential(f.queue, id) <= 3 * Count(f.entered, id)
    && Count(f.released, id) <= Count(f.handled, id)
  }

  lemma CountAppend(ids: seq<nat>, n: nat, id: nat)
    ensures Count(ids + [n], id) == Count(ids, id) + if n == id then 1 else 0
  {
    assert (ids + [n])[..|ids|] == ids;
  }

  lemma PostConserves(c: Config, f: Fifo, e: Event, n: nat, id: nat)
    requires Conserved(f, id)
    ensures Conserved(FifoStep(c, f, Post(e, n)), id)
  {
    hide Handle; hide Count;
    QueueAppend(f.queue, [Tagged(e, n)], id);
    CountAppend(f.entered, n, id);
  }

  lemma PollConserves(c: Config, f: Fifo, line: Line, id: nat)
    requires Conserved(f, id)
    ensures Conserved(FifoStep(c, f, Poll(line)), id)
  {
    hide Handle; hide Count; hide Tag;
    if f.queue != [] {
      var t := f.queue[0];
      var r := Handle(c, f.core, t.event, line);
      QueueAppend(f.queue[1..], Tag(r.post, t.id), id);
      TagOne(r.post, t.id, id);
      CountAppend(f.released, t.id, id);
      CountAppend(f.handled, t.id, id);
    }
  }

  lemma TagOne(es: seq<Event>, n: nat, id: nat)
    requires |es| <= 1 && (es != [] ==> IsTicket(es[0]))
    ensures Waiting(Tag(es, n), id) == if es == [] || n != id then 0 else 1
    ensures Potential(Tag(es, n), id) == if es == [] || n != id then 0 else Rank(es[0])
  {
    if es != [] {
      assert Tag(es, n) == [Tagged(es[0], n)];
    }
  }

  lemma {:induction false} RunConserves(c: Config, f: Fifo, actions: seq<Action>, id: nat)
    requires Conserved(f, id)
    ensures Conserved(FifoRun(c, f, actions), id)
    decreases |actions|
  {
    hide Conserved; hide FifoStep;
    if actions != [] {
      var before := FifoRun(c, f, actions[..|actions| - 1]);
      RunConserves(c, f, actions[..|actions| - 1], id);
      match actions[|actions| - 1]
      case Post(e, n) => PostConserves(c, before, e, n, id);
      case Poll(line) => PollConserves(c, before, line, id);
    }
  }

  /**
    Over every run of polls and posts from an empty queue, each request is released or pending
    exactly as often as it entered. A request that entered once is released exactly when it is
    no longer pending, and that is so after at most three handled events.
  */
  lemma OneReleasePerRequest(c: Config, core: Core, actions: seq<Action>, id: nat)
    ensures
      var f := FifoRun(c, Fifo(core, [], [], [], []), actions);
      && Count(f.entered, id) == Count(f.released, id) + Waiting(f.queue, id)
      && (Count(f.entered, id) == 1 ==>
        && Count(f.released, id) <= Count(f.handled, id) <= 3
        && (Count(f.released, id) == 1 <==> Waiting(f.queue, id) == 0)
        && (Count(f.handled, id) == 3 ==> Count(f.released, id) == 1))
  {
    hide FifoRun;
    assert Conserved(Fifo(core, [], [], [], []), id);
    RunConserves(c, Fifo(core, [], [], [], []), actions, id);
  }

  // ----- Over the event word of the port -----

  /** `entered` and `merged` count tickets raised from outside, and raised while their bit was set. */
  datatype Port = Port(core: Core, events: set<Event>, entered: nat, merged: nat)

  /** `xMBMasterPortEventPost` sets a bit. */
  function Raise(p: Port, e: Event): (r: Port) {
    p.(events := p.events + {e}, merged := if IsTicket(e) && e in p.events then p.merged + 1 else p.merged)
  }

  /** The bit that `xMBMasterPortEventGet` fetches. */
  function Next(events: set<Event>): (e: Event)
    requires events != {}
    ensures e in events
  {
    if Ready in events then Ready
    else if FrameReceived in events then FrameReceived
    else if Execute in events then Execute
    else if FrameSent in events then FrameSent
    else
      assert ErrorProcess in events by {
        var x: Event :| x in events;
        assert x == ErrorProcess;
      }
      ErrorProcess
  }

  /** The event's bit in the event word. */
  function Bit(e: Event): (n: nat) {
    match e
    case Ready => 1
    case FrameReceived => 2
    case Execute => 4
    case FrameSent => 8
    case ErrorProcess => 16
  }

  /** Events are fetched from the lowest bit up. */
  lemma NextIsLowest(events: set<Event>, e: Event)
    requires e in events
    ensures Bit(Next(events)) <= Bit(e) && (Bit(Next(events)) == Bit(e) ==> Next(events) == e)
  {
  }

  function PollPort(c: Config, p: Port, line: Line): (r: Port) {
    if p.events == {} then p
    else
      var e := Next(p.events);
      var r := Handle(c, p.core, e, line);
      var q := p.(core := r.core, events := p.events - {e});
      if r.post == [] then q else Raise(q, r.post[0])
  }

  function PortStep(c: Config, p: Port, a: Action): (r: Port) {
    match a
    case Post(e, _) => Raise(p.(entered := if IsTicket(e) then p.entered + 1 else p.entered), e)
    case Poll(line) => PollPort(c, p, line)
  }

  function PortRun(c: Config, p: Port, actions: seq<Action>): (r: Port)
    decreases |actions|
  {
    if actions == [] then p
    else PortStep(c, PortRun(c, p, actions[..|actions| - 1]), actions[|actions| - 1])
  }

  /** The tickets among the pending bits. */
  function Pending(events: set<Event>): (n: nat) {
    (if FrameReceived in events then 1 else 0) + (if Execute in events then 1 else 0)
    + if ErrorProcess in events then 1 else 0
  }

  /** Tickets that entered and were neither released, nor are pending, nor were merged into a set bit. */
  function Unaccounted(p: Port): int {
    p.entered - p.core.releases - Pending(p.events) - p.merged
  }

  lemma StepAccounts(c: Config, p: Port, a: Action)
    ensures Unaccounted(PortStep(c, p, a)) == Unaccounted(p)
  {
    hide Handle;
    if a.Poll? && p.events != {} {
      var r := Handle(c, p.core, Next(p.events), a.line);
      assert r.post == [] || r.post == [r.post[0]];
    }
  }

  /** Conservation over every run. */
  lemma {:induction false} TicketsAccounted(c: Config, p: Port, actions: seq<Action>)
    ensures Unaccounted(PortRun(c, p, actions)) == Unaccounted(p)
    decreases |actions|
  {
    hide Unaccounted; hide PortStep;
    if actions != [] {
      TicketsAccounted(c, p, actions[..|actions| - 1]);
      StepAccounts(c, PortRun(c, p, actions[..|actions| - 1]), actions[|actions| - 1]);
    }
  }

  /** One request at a time: a ticket enters only when none is pending. */
  ghost predicate OneAtATime(c: Config, p: Port, actions: seq<Action>) {
    forall i :: 0 <= i < |actions| && actions[i].Post? && IsTicket(actions[i].event) ==>
      Pending(PortRun(c, p, actions[..i]).events) == 0
  }

  lemma StepMergesNothing(c: Config, p: Port, a: Action)
    requires Pending(p.events) <= 1
    requires a.Post? && IsTicket(a.event) ==> Pending(p.events) == 0
    ensures PortStep(c, p, a).merged == p.merged && Pending(PortStep(c, p, a).events) <= 1
  {
    hide Handle;
    if a.Poll? && p.events != {} {
      var r := Handle(c, p.core, Next(p.events), a.line);
      assert r.post == [] || r.post == [r.post[0]];
    }
  }

  /**
    With one request at a time the event word loses nothing: no ticket is merged, at most one
    is pending, and every request but that one has been released exactly once.
  */
  lemma {:induction false} OneAtATimeLosesNothing(c: Config, core: Core, actions: seq<Action>)
    requires OneAtATime(c, Port(core, {}, 0, 0), actions)
    ensures
      var p := PortRun(c, Port(core, {}, 0, 0), actions);
      p.merged == 0 && Pending(p.events) <= 1 && p.entered + core.releases == p.core.releases + Pending(p.events)
    decreases |actions|
  {
    hide PortStep;
    var start := Port(core, {}, 0, 0);
    if actions != [] {
      var front := actions[..|actions| - 1];
      forall i | 0 <= i < |front| && front[i].Post? && IsTicket(front[i].event)
        ensures Pending(PortRun(c, start, front[..i]).events) == 0
      {
        assert front[..i] == actions[..i];
      }
      OneAtATimeLosesNothing(c, core, front);
      StepMergesNothing(c, PortRun(c, start, front), actions[|actions| - 1]);
    }
    TicketsAccounted(c, start, actions);
  }

  // ----- The requests that are sent -----

  /** A pending request with nothing before it is sent to its destination, from the request buffer. */
  lemma SendPoll(c: Config, p: Port, line: Line)
    requires FrameSent in p.events && forall e :: e in p.events ==> Bit(e) >= 8
    ensures PollPort(c, p, line) == p.(
      core := p.core.(frame := line.sending, calls := p.core.calls + [Sent(p.core.dest)]),
      events := p.events - {FrameSent})
  {
    assert Bit(Ready) == 1 && Bit(FrameReceived) == 2 && Bit(Execute) == 4;
  }

  function Sends(calls: seq<Call>): (n: nat) {
    if calls == [] then 0 else Sends(calls[..|calls| - 1]) + if calls[|calls| - 1].Sent? then 1 else 0
  }

  lemma {:induction false} SendsConcat(a: seq<Call>, b: seq<Call>)
    ensures Sends(a + b) == Sends(a) + Sends(b)
    decreases |b|
  {
    if b == [] {
      assert a + b == a;
    } else {
      assert (a + b)[..|a + b| - 1] == a + b[..|b| - 1];
      SendsConcat(a, b[..|b| - 1]);
    }
  }

  /** Send requests that are posted while none is pending. */
  function FreshSends(c: Config, p: Port, actions: seq<Action>): (n: nat)
    decreases |actions|
  {
    if actions == [] then 0
    else
      var before, a := PortRun(c, p, actions[..|actions| - 1]), actions[|actions| - 1];
      FreshSends(c, p, actions[..|actions| - 1])
      + if a.Post? && a.event == FrameSent && FrameSent !in before.events then 1 else 0
  }

  /** Requests sent and requests still to be sent. */
  function Sending(p: Port): (n: nat) {
    Sends(p.core.calls) + if FrameSent in p.events then 1 else 0
  }

  /** Over any run, each request that is posted while none is pending is sent once, or is still pending. */
  lemma {:induction false} EachSentOnce(c: Config, p: Port, actions: seq<Action>)
    ensures Sending(PortRun(c, p, actions)) == Sending(p) + FreshSends(c, p, actions)
    decreases |actions|
  {
    hide PortStep; hide Sending;
    if actions != [] {
      var before, a := PortRun(c, p, actions[..|actions| - 1]), actions[|actions| - 1];
      EachSentOnce(c, p, actions[..|actions| - 1]);
      StepSends(c, before, a);
    }
  }

  lemma StepSends(c: Config, p: Port, a: Action)
    ensures Sending(PortStep(c, p, a)) ==
      Sending(p) + if a.Post? && a.event == FrameSent && FrameSent !in p.events then 1 else 0
  {
    hide Handle;
    if a.Poll? && p.events != {} {
      var e := Next(p.events);
      HandleSends(c, p.core, e, a.line);
    }
  }

  lemma HandleSends(c: Config, core: Core, e: Event, line: Line)
    ensures
      var r := Handle(c, core, e, line);
      Sends(r.core.calls) == Sends(core.calls) + if e == FrameSent then 1 else 0
  {
    hide Sends; hide Perform;
    SendsOne(core.calls, Sent(core.dest));
    SendsOne(core.calls, Failed(core.error, core.dest));
    if e == Execute {
      PerformSends(c, core, line);
      SendsOne(Perform(c, core, line).0.calls, Succeeded);
    }
  }

  lemma SendsOne(calls: seq<Call>, x: Call)
    ensures Sends(calls + [x]) == Sends(calls) + if x.Sent? then 1 else 0
  {
    assert (calls + [x])[..|calls|] == calls;
  }

  lemma PerformSends(c: Config, core: Core, line: Line)
    ensures Sends(Perform(c, core, line).0.calls) == Sends(core.calls)
  {
    hide Sends; hide Dispatch;
    var i := Dispatch(c.table, core.frame(0));
    if i >= 0 {
      var h := c.table[i].handler;
      SendsOne(core.calls, Called(h, core.dest));
      SendsConcat(core.calls, Calls(h, c.slaves));
      NoSends(Calls(h, c.slaves));
    }
  }

  lemma {:induction false} NoSends(calls: seq<Call>)
    requires forall i :: 0 <= i < |calls| ==> calls[i].Called?
    ensures Sends(calls) == 0
    decreases |calls|
  {
    if calls != [] {
      NoSends(calls[..|calls| - 1]);
    }
  }

  // ----- The buffer that is worked on -----

  /** Fields change only with the events that own them. */
  lemma HandleKeeps(c: Config, core: Core, e: Event, line: Line)
    ensures
      var after := Handle(c, core, e, line).core;
      && (e == Ready ==> after == core)
      && (e == Execute ==> after.frame == core.frame)
      && (e == FrameReceived && !line.good ==> after.frame == core.frame)
      && (e != FrameReceived && e != Execute ==> after.error == core.error)
      && (e == FrameReceived || e == FrameSent || e == ErrorProcess ==> after.dest == core.dest)
  {
    hide Dispatch;
  }

  /** A poll that changes the frame buffer, and the buffer it changes to. */
  predicate Loads(events: set<Event>, a: Action) {
    && a.Poll? && events != {}
    && (Next(events) in {FrameSent, ErrorProcess} || (Next(events) == FrameReceived && a.line.good))
  }

  function Loaded(events: set<Event>, line: Line): (b: Buffer)
    requires events != {}
  {
    if Next(events) == FrameReceived then line.received else line.sending
  }

  lemma StepLoads(c: Config, p: Port, a: Action)
    ensures PortStep(c, p, a).core.frame == if Loads(p.events, a) then Loaded(p.events, a.line) else p.core.frame
  {
    hide Dispatch;
  }

  /** The run before action `k` has these events pending. */
  function EventsAt(c: Config, p: Port, actions: seq<Action>, k: nat): (events: set<Event>)
    requires k <= |actions|
  {
    PortRun(c, p, actions[..k]).events
  }

  /**
    The buffer that is worked on: that of the last good frame received, request sent or error
    processed, over any run of polls and posts.
  */
  lemma {:induction false} FrameIsLast(c: Config, p: Port, actions: seq<Action>, k: nat)
    requires k < |actions| && Loads(EventsAt(c, p, actions, k), actions[k])
    requires forall j :: k < j < |actions| ==> !Loads(EventsAt(c, p, actions, j), actions[j])
    ensures PortRun(c, p, actions).core.frame == Loaded(EventsAt(c, p, actions, k), actions[k].line)
    decreases |actions|
  {
    hide PortStep; hide Loads; hide Loaded;
    var m := |actions| - 1;
    var front := actions[..m];
    StepLoads(c, PortRun(c, p, front), actions[m]);
    assert EventsAt(c, p, actions, m) == PortRun(c, p, front).events;
    if k < m {
      assert forall j :: 0 <= j <= m ==> front[..j] == actions[..j];
      assert forall j :: k <= j < m ==> EventsAt(c, p, front, j) == EventsAt(c, p, actions, j);
      FrameIsLast(c, p, front, k);
    }
  }

  // ----- When a second ticket is lost -----

  /** A run of polls and nothing else. */
  function Polling(c: Config, p: Port, lines: seq<Line>): (r: Port)
    decreases |lines|
  {
    if lines == [] then p else Polling(c, PollPort(c, p, lines[0]), lines[1..])
  }

  /** Two tickets are pending, of which the first to be handled does not turn into the second. */
  ghost predicate KeepsApart(c: Config, p: Port) {
    && FrameReceived !in p.events && Execute in p.events && ErrorProcess in p.events
    && forall line: Line :: Perform(c, p.core, line).1 == EX_NONE
  }

  lemma {:induction false} MergedGrows(c: Config, p: Port, lines: seq<Line>)
    ensures Polling(c, p, lines).merged >= p.merged
    decreases |lines|
  {
    hide Handle;
    if lines != [] {
      MergedGrows(c, PollPort(c, p, lines[0]), lines[1..]);
    }
  }

  lemma {:induction false} OneIsSafe(c: Config, p: Port, lines: seq<Line>)
    requires Pending(p.events) <= 1
    ensures Polling(c, p, lines).merged == p.merged
    decreases |lines|
  {
    hide PollPort; hide Pending;
    if lines != [] {
      StepMergesNothing(c, p, Poll(lines[0]));
      PollIsStep(c, p, lines[0]);
      OneIsSafe(c, PollPort(c, p, lines[0]), lines[1..]);
    }
  }

  lemma PollIsStep(c: Config, p: Port, line: Line)
    ensures PortStep(c, p, Poll(line)) == PollPort(c, p, line)
  {
    hide PollPort;
  }

  lemma {:induction false} ApartIsSafe(c: Config, p: Port, lines: seq<Line>)
    requires KeepsApart(c, p)
    ensures Polling(c, p, lines).merged == p.merged
    decreases |lines|
  {
    hide Perform;
    if lines != [] {
      var q := PollPort(c, p, lines[0]);
      if Ready in p.events {
        assert q == p.(events := p.events - {Ready});
        ApartIsSafe(c, q, lines[1..]);
      } else {
        assert Next(p.events) == Execute && Perform(c, p.core, lines[0]).1 == EX_NONE;
        assert Pending(q.events) == 1;
        OneIsSafe(c, q, lines[1..]);
      }
    }
  }

  /** A line at which a poll merges two tickets, if `Ready` is not in the way. */
  ghost predicate Merges(c: Config, p: Port, line: Line) {
    if FrameReceived in p.events then
      if line.good && line.address == p.core.dest then Execute in p.events else ErrorProcess in p.events
    else Execute in p.events && ErrorProcess in p.events && Perform(c, p.core, line).1 != EX_NONE
  }

  lemma MergesWithin(c: Config, p: Port, line: Line)
    requires Merges(c, p, line)
    ensures Polling(c, p, [line, line]).merged > p.merged
  {
    hide Perform;
    var q := PollPort(c, p, line);
    assert [line, line][1..] == [line] && [line][1..] == [];
    assert Polling(c, p, [line, line]) == Polling(c, q, [line]) == PollPort(c, q, line);
    if Ready in p.events {
      assert q == p.(events := p.events - {Ready});
      PollMerges(c, q, line);
    } else {
      PollMerges(c, p, line);
      MergedGrows(c, q, [line]);
    }
  }

  lemma PollMerges(c: Config, p: Port, line: Line)
    requires Merges(c, p, line) && Ready !in p.events
    ensures PollPort(c, p, line).merged == p.merged + 1
  {
    hide Perform;
  }

  /** Polling loses no ticket, whatever the lines show, exactly if at most one is pending or the two are kept apart. */
  lemma PollingLosesExactly(c: Config, p: Port)
    ensures (forall lines: seq<Line> :: Polling(c, p, lines).merged == p.merged)
      <==> Pending(p.events) <= 1 || KeepsApart(c, p)
  {
    hide Perform; hide PollPort; hide Polling;
    if Pending(p.events) <= 1 {
      forall lines: seq<Line> ensures Polling(c, p, lines).merged == p.merged {
        OneIsSafe(c, p, lines);
      }
    } else if KeepsApart(c, p) {
      forall lines: seq<Line> ensures Polling(c, p, lines).merged == p.merged {
        ApartIsSafe(c, p, lines);
      }
    } else {
      var line := MergingLine(c, p);
      MergesWithin(c, p, line);
      assert Polling(c, p, [line, line]).merged != p.merged;
    }
  }

  lemma MergingLine(c: Config, p: Port) returns (line: Line)
    requires Pending(p.events) > 1 && !KeepsApart(c, p)
    ensures Merges(c, p, line)
  {
    hide Perform;
    if FrameReceived in p.events {
      line := Line(Execute in p.events, p.core.dest, p.core.frame, p.core.frame, false);
    } else {
      line :| Perform(c, p.core, line).1 != EX_NONE;
    }
  }

  /** A ticket can be posted without loss exactly if none is pending, or it is kept apart from the one that is. */
  lemma PostLosesExactly(c: Config, p: Port, e: Event)
    requires IsTicket(e)
    ensures
      var q := PortStep(c, p, Post(e, 0));
      (forall lines: seq<Line> :: Polling(c, q, lines).merged == p.merged)
      <==> e !in p.events && (Pending(p.events) == 0 || KeepsApart(c, q))
  {
    hide Perform; hide Polling; hide KeepsApart;
    var q := PortStep(c, p, Post(e, 0));
    PollingLosesExactly(c, q);
    if e in p.events {
      MergedGrows(c, q, []);
      assert Polling(c, q, []).merged > p.merged;
    } else {
      assert Pending(q.events) == Pending(p.events) + 1 && q.merged == p.merged;
    }
  }

  /** Two frames posted before a poll: one of them is lost for good. */
  lemma SecondFrameLost(c: Config, core: Core)
    ensures
      var two := [Post(FrameReceived, 0), Post(FrameReceived, 1)];
      var p := PortRun(c, Port(core, {}, 0, 0), two);
      p.entered == 2 && p.merged == 1 && Pending(p.events) == 1
  {
    var start, two := Port(core, {}, 0, 0), [Post(FrameReceived, 0), Post(FrameReceived, 1)];
    assert two[..1] == [two[0]] && two[..1][..0] == [];
    assert PortRun(c, start, two[..1][..0]) == start;
    assert PortRun(c, start, two[..1]) == PortStep(c, start, two[0]);
    assert PortRun(c, start, two) == PortStep(c, PortStep(c, start, two[0]), two[1]);
  }

  /** The polls that the pending bits can still take. */
  function Work(events: set<Event>): (n: nat)
    ensures events != {} ==> n > 0
  {
    assert events != {} ==> Next(events) in events;
    (if Ready in events then 1 else 0) + (if FrameSent in events then 1 else 0)
    + (if FrameReceived in events then 3 else 0) + (if Execute in events then 2 else 0)
    + if ErrorProcess in events then 1 else 0
  }

  lemma PollWorks(c: Config, p: Port, line: Line)
    requires p.events != {}
    ensures Work(PollPort(c, p, line).events) < Work(p.events)
  {
    hide Handle;
    var r := Handle(c, p.core, Next(p.events), line);
    assert r.post == [] || r.post == [r.post[0]];
  }

  /** Polling without further posts releases every ticket that was not merged, within `Work` polls. */
  lemma {:induction false} PollingReleasesAll(c: Config, p: Port, lines: seq<Line>)
    requires |lines| >= Work(p.events) && Unaccounted(p) == 0
    ensures
      var r := PortRun(c, p, seq(|lines|, i requires 0 <= i < |lines| => Poll(lines[i])));
      r.events == {} && r.core.releases == p.entered - r.merged
    decreases |lines|
  {
    hide PollPort;
    var polls := seq(|lines|, i requires 0 <= i < |lines| => Poll(lines[i]));
    PollsShrink(c, p, polls);
    TicketsAccounted(c, p, polls);
  }

  lemma {:induction false} PollsShrink(c: Config, p: Port, polls: seq<Action>)
    requires forall i :: 0 <= i < |polls| ==> polls[i].Poll?
    ensures
      var r := PortRun(c, p, polls);
      r.entered == p.entered && (r.events == {} || Work(r.events) + |polls| <= Work(p.events))
    decreases |polls|
  {
    hide PollPort; hide Work;
    if polls != [] {
      var front, line := polls[..|polls| - 1], polls[|polls| - 1].line;
      PollsShrink(c, p, front);
      var before := PortRun(c, p, front);
      PollEnters(c, before, line);
      if before.events != {} {
        PollWorks(c, before, line);
      }
    }
  }

  lemma PollEnters(c: Config, p: Port, line: Line)
    ensures PollPort(c, p, line).entered == p.entered
    ensures p.events == {} ==> PollPort(c, p, line) == p
  {
    hide Handle;
  }

  /** What becomes of a frame, by a full scan of the table: the handler calls, then success or the kind of failure. */
  function Verdict(c: Config, core: Core, line: Line, broadcast: bool): (calls: seq<Call>) {
    var code, dest := line.received(0), core.dest;
    if !line.good || line.address != dest then [Failed(ReceiveData, dest)]
    else if code >= 128 then (if line.received(1) == EX_NONE then [Succeeded] else [Failed(ExecuteFunction, dest)])
    else
      var i := if code == 0 then -1 else FullScan(c.table, code, 0);
      if i < 0 then [Failed(ExecuteFunction, dest)]
      else
        var h := c.table[i].handler;
        var last := if broadcast then c.slaves else dest;
        if broadcast && c.slaves == 0 then [Failed(ExecuteFunction, dest)]
        else
          (if broadcast then Calls(h, c.slaves) else [Called(h, dest)])
          + [if c.handle(h, last, line.received) == EX_NONE then Succeeded else Failed(ExecuteFunction, last)]
  }

  lemma ReceivePoll(c: Config, p: Port, line: Line)
    requires p.events == {FrameReceived}
    ensures
      var q, ours := PollPort(c, p, line), line.good && line.address == p.core.dest;
      && q.events == (if ours then {Execute} else {ErrorProcess})
      && q.core.dest == p.core.dest && q.core.calls == p.core.calls && q.core.releases == p.core.releases
      && (ours ==> q.core.frame == line.received) && (!ours ==> q.core.error == ReceiveData)
  {
    assert Next(p.events) == FrameReceived;
    assert p.events - {FrameReceived} == {};
  }

  lemma ExecutePoll(c: Config, p: Port, line: Line)
    requires p.events == {Execute}
    ensures
      var q, (after, exception) := PollPort(c, p, line), Perform(c, p.core, line);
      && (exception == EX_NONE ==>
        q.events == {} && q.core.calls == after.calls + [Succeeded] && q.core.releases == p.core.releases + 1)
      && (exception != EX_NONE ==>
        && q.events == {ErrorProcess} && q.core.calls == after.calls && q.core.releases == p.core.releases
        && q.core.error == ExecuteFunction && q.core.dest == after.dest)
  {
    hide Perform;
    assert Next(p.events) == Execute;
    assert p.events - {Execute} == {};
  }

  lemma ErrorPoll(c: Config, p: Port, line: Line)
    requires p.events == {ErrorProcess}
    ensures
      var q := PollPort(c, p, line);
      && q.events == {} && q.core.calls == p.core.calls + [Failed(p.core.error, p.core.dest)]
      && q.core.releases == p.core.releases + 1
  {
    assert Next(p.events) == ErrorProcess;
    assert p.events - {ErrorProcess} == {};
  }

  /** The calls and the failure at the end of EV_MASTER_EXECUTE, if any, are the verdict. */
  lemma PerformIsVerdict(c: Config, k: nat, core: Core, line: Line, l1: Line)
    requires InUse(c.table, k) && line.good && line.address == core.dest
    ensures
      var (after, exception) := Perform(c, core.(frame := line.received), l1);
      after.calls + [if exception == EX_NONE then Succeeded else Failed(ExecuteFunction, after.dest)]
      == core.calls + Verdict(c, core, line, l1.broadcast)
  {
    hide InUse; hide FullScan; hide DispatchFrom;
    var code := line.received(0);
    if code != 0 {
      InUseDispatch(c.table, k, code);
    }
  }

  /**
    A frame received on its own is handled as its verdict says and releases the run resource once,
    within three polls.
  */
  lemma FrameOutcome(c: Config, k: nat, p: Port, l0: Line, l1: Line, l2: Line)
    requires InUse(c.table, k) && p.events == {FrameReceived}
    ensures
      var r := PollPort(c, PollPort(c, PollPort(c, p, l0), l1), l2);
      && r.events == {} && r.core.releases == p.core.releases + 1
      && r.core.calls == p.core.calls + Verdict(c, p.core, l0, l1.broadcast)
  {
    hide InUse; hide PollPort; hide Perform;
    var p1 := PollPort(c, p, l0);
    var p2 := PollPort(c, p1, l1);
    ReceivePoll(c, p, l0);
    PollEnters(c, p2, l2);
    if l0.good && l0.address == p.core.dest {
      hide Verdict;
      ExecutePoll(c, p1, l1);
      PerformIsVerdict(c, k, p1.core, l0, l1);
      assert p1.core.(frame := l0.received) == p1.core;
      SameVerdict(c, p.core, p1.core, l0, l1.broadcast);
      if p2.events == {ErrorProcess} {
        ErrorPoll(c, p2, l2);
      }
    } else {
      ErrorPoll(c, p1, l1);
    }
  }

  lemma SameVerdict(c: Config, core: Core, core': Core, line: Line, broadcast: bool)
    requires core.dest == core'.dest
    ensures Verdict(c, core, line, broadcast) == Verdict(c, core', line, broadcast)
  {
  }

  /** The statics of `mb_m.c` and the event word of the port. */
  class Master {
    const handlers: Table
    const slaves: nat
    const handle: (nat, nat, Buffer) -> nat
    var events: set<Event>
    var frame: Buffer
    var error: ErrorType
    var dest: nat
    var calls: seq<Call>
    var releases: nat
    var masterMode: bool
    ghost var entered: nat
    ghost var merged: nat

    constructor (handlers: Table, slaves: nat, handle: (nat, nat, Buffer) -> nat)
      ensures this.handlers == handlers && this.slaves == slaves && this.handle == handle
      ensures events == {} && calls == [] && releases == 0 && !masterMode
      ensures entered == 0 && merged == 0
    {
      entered, merged := 0, 0;
      this.handlers, this.slaves, this.handle := handlers, slaves, handle;
      events, calls, releases, masterMode := {}, [], 0, false;
      frame, error, dest := _ => 0, RespondTimeout, 0;
    }

    ghost function Conf(): Config
      reads handlers.slots
    {
      Config(handlers.slots[..], slaves, handle)
    }

    ghost function State(): Core
      reads this
    {
      Core(frame, error, dest, calls, releases)
    }

    ghost function Abstract(): Port
      reads this
    {
      Port(State(), events, entered, merged)
    }

    /** `xMBMasterPortEventPost`. */
    method SetBit(e: Event)
      modifies this`events, this`merged
      ensures Abstract() == Raise(old(Abstract()), e)
    {
      if IsTicket(e) && e in events {
        merged := merged + 1;
      }
      events := events + {e};
    }

    /** The handler calls of EV_MASTER_EXECUTE for a registered function. */
    method Run(h: nat, broadcast: bool) returns (exception: nat)
      modifies this`dest, this`calls
      ensures broadcast ==>
        && calls == old(calls) + Calls(h, slaves) && dest == (if slaves == 0 then old(dest) else slaves)
        && exception == if slaves == 0 then EX_ILLEGAL_FUNCTION else handle(h, slaves, frame)
      ensures !broadcast ==>
        calls == old(calls) + [Called(h, dest)] && dest == old(dest) && exception == handle(h, dest, frame)
    {
      exception := EX_ILLEGAL_FUNCTION;
      if broadcast {
        var j := 1;
        while j <= slaves
          invariant 1 <= j <= slaves + 1
          invariant calls == old(calls) + Calls(h, j - 1)
          invariant dest == if j == 1 then old(dest) else j - 1
          invariant exception == if j == 1 then EX_ILLEGAL_FUNCTION else handle(h, j - 1, frame)
        {
          dest := j;
          calls := calls + [Called(h, dest)];
          exception := handle(h, dest, frame);
          j := j + 1;
        }
      } else {
        calls := calls + [Called(h, dest)];
        exception := handle(h, dest, frame);
      }
    }

    /** The search for the handler and its run; callbacks run in master mode, which is off again afterwards. */
    method Dispatched(line: Line) returns (exception: nat)
      requires !masterMode
      modifies this`dest, this`calls, this`masterMode
      ensures (State(), exception) == Perform(Conf(), old(State()), line) && !masterMode
    {
      var code := frame(0);
      if code >= 128 {
        return frame(1);
      }
      exception := EX_ILLEGAL_FUNCTION;
      var i := 0;
      while i < handlers.slots.Length && handlers.slots[i].code != 0
        invariant 0 <= i <= handlers.slots.Length
        invariant Dispatch(handlers.slots[..], code) == DispatchFrom(handlers.slots[..], code, i)
        invariant State() == old(State()) && !masterMode && exception == EX_ILLEGAL_FUNCTION
      {
        if handlers.slots[i].code == code {
          masterMode := true;
          exception := Run(handlers.slots[i].handler, line.broadcast);
          masterMode := false;
          return;
        }
        i := i + 1;
      }
    }

    /** `eMBMasterPoll` on the bit that is fetched. */
    method PollOnce(line: Line)
      requires !masterMode
      modifies this
      ensures !masterMode
      ensures Abstract() == PollPort(Conf(), old(Abstract()), line)
    {
      if events == {} {
        return;
      }
      var e := Next(events);
      events := events - {e};
      match e
      case Ready =>
      case FrameReceived =>
        if line.good {
          frame := line.received;
        }
        if line.good && line.address == dest {
          SetBit(Execute);
        } else {
          error := ReceiveData;
          SetBit(ErrorProcess);
        }
      case Execute =>
        var exception := Dispatched(line);
        if exception != EX_NONE {
          error := ExecuteFunction;
          SetBit(ErrorProcess);
        } else {
          calls := calls + [Succeeded];
          releases := releases + 1;
        }
      case FrameSent =>
        frame := line.sending;
        calls := calls + [Sent(dest)];
      case ErrorProcess =>
        frame := line.sending;
        calls := calls + [Failed(error, dest)];
        releases := releases + 1;
    }

    /** Any run of polls and posts. */
    method Act(actions: seq<Action>)
      requires !masterMode
      modifies this
      ensures !masterMode && Abstract() == PortRun(Conf(), old(Abstract()), actions)
    {
      hide PollPort; hide Raise;
      for i := 0 to |actions|
        invariant !masterMode && Abstract() == PortRun(Conf(), old(Abstract()), actions[..i])
      {
        assert actions[..i + 1][..i] == actions[..i];
        match actions[i]
        case Poll(line) => PollOnce(line);
        case Post(e, _) =>
          if IsTicket(e) {
            entered := entered + 1;
          }
          SetBit(e);
      }
      assert actions[..|actions|] == actions;
    }
  }
}
