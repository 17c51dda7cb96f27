/**
  The decoder over whole runs of requests: rate changes while a stream runs, and one stream
  after another.
*/
module PcmRuns {
  import opened Bytes
  import opened PcmSpec
  import opened PcmStream

  // ----- Buffers and rate changes -----

  /** Buffers and new rates while a stream is played, normal play included; only the last buffer may be final. */
  predicate Feeding(rqs: seq<Request>) {
    && (forall i :: 0 <= i < |rqs| ==> rqs[i].Enqueue? || rqs[i].SetRate?)
    && (forall i :: 0 <= i < |rqs| - 1 && rqs[i].Enqueue? ==> !rqs[i].final)
  }

  /** The bytes that come in. */
  function Incoming(rqs: seq<Request>): (s: seq<Byte>) {
    if rqs == [] then [] else (if rqs[0].Enqueue? then rqs[0].data else []) + Incoming(rqs[1..])
  }

  function FeedsOf(rqs: seq<Request>): (fs: seq<Feed>)
    requires Feeding(rqs)
  {
    if rqs == [] then []
    else [if rqs[0].Enqueue? then Data(|rqs[0].data|) else Rate(rqs[0].subsample)] + FeedsOf(rqs[1..])
  }

  lemma {:induction false} MaskedConcat(a: seq<Byte>, b: seq<Byte>, m: seq<bool>, n: seq<bool>)
    requires |a| == |m| && |b| == |n|
    ensures Masked(a + b, m + n) == Masked(a, m) + Masked(b, n)
    decreases |a|
  {
    if a == [] {
      assert a + b == b && m + n == n;
    } else {
      assert (a + b)[1..] == a[1..] + b && (m + n)[1..] == m[1..] + n;
      MaskedConcat(a[1..], b, m[1..], n);
      MaskedHead(a, m);
      MaskedHead(a + b, m + n);
      hide Masked;
      var x, y, z := if m[0] then [a[0]] else [], Masked(a[1..], m[1..]), Masked(b, n);
      assert x + y + z == x + (y + z);
    }
  }

  lemma MaskedHead(a: seq<Byte>, m: seq<bool>)
    requires |a| == |m| && a != []
    ensures Masked(a, m) == (if m[0] then [a[0]] else []) + Masked(a[1..], m[1..])
  {
  }

  /** The mask of a run covers what came in. */
  lemma {:induction false} MaskCovers(align: nat, subsample: nat, ph: Phase, rqs: seq<Request>)
    requires Feeding(rqs) && Sound(align, ph)
    ensures |MaskRun(align, subsample, ph, FeedsOf(rqs))| == |Incoming(rqs)|
    decreases |rqs|
  {
    if rqs != [] {
      var rest := FeedsOf(rqs[1..]);
      assert FeedsOf(rqs)[1..] == rest;
      if rqs[0].SetRate? {
        var r := rqs[0].subsample;
        MaskCovers(align, r, if Switches(subsample, r) then Phase(0, 0) else ph, rqs[1..]);
      } else if subsample == 0 {
        MaskCovers(align, subsample, ph, rqs[1..]);
      } else {
        MaskCovers(align, subsample, PhaseAfter(align, subsample, ph, |rqs[0].data|), rqs[1..]);
      }
    }
  }

  /** A playing decoder hands down just the bytes that the mask of the run marks. */
  lemma {:induction false} FeedingIsMasked(st: State, rqs: seq<Request>)
    requires Feeding(rqs) && st.Ready() && (rqs != [] ==> st.streaming)
    ensures AdmissibleAll(st, rqs)
    ensures |MaskRun(st.align, st.subsample, st.phase, FeedsOf(rqs))| == |Incoming(rqs)|
    ensures Concat(ServeAll(st, rqs).1) ==
      Masked(Incoming(rqs), MaskRun(st.align, st.subsample, st.phase, FeedsOf(rqs)))
    decreases |rqs|
  {
    MaskCovers(st.align, st.subsample, st.phase, rqs);
    if rqs != [] {
      FeedStep(st, rqs);
      var next := Serve(st, rqs[0]).0;
      FeedingIsMasked(next, rqs[1..]);
      MaskStep(st, rqs);
    }
  }

  /** What the first request does to the state. */
  lemma FeedStep(st: State, rqs: seq<Request>)
    requires rqs != [] && Feeding(rqs) && st.Ready() && st.streaming
    ensures Feeding(rqs[1..]) && Admissible(st, rqs[0])
    ensures
      var (next, out), f := Serve(st, rqs[0]), st.subsample;
      && next.Ready() && next.align == st.align && (|rqs| > 1 ==> next.streaming)
      && (rqs[0].Enqueue? ==>
        && next.subsample == f
        && (f == 0 ==> out == [rqs[0].data] && next.phase == st.phase)
        && (f > 0 ==>
          && out == [Kept(st.align, f, st.phase, rqs[0].data)]
          && next.phase == PhaseAfter(st.align, f, st.phase, |rqs[0].data|)))
      && (rqs[0].SetRate? ==>
        && next.subsample == rqs[0].subsample && out == []
        && next.phase == if Switches(f, rqs[0].subsample) then Phase(0, 0) else st.phase)
  {
  }

  lemma {:induction false} MaskedAll(bytes: seq<Byte>)
    ensures Masked(bytes, All(|bytes|)) == bytes
    decreases |bytes|
  {
    if bytes != [] {
      MaskedAll(bytes[1..]);
      assert All(|bytes|)[1..] == All(|bytes| - 1);
      assert [bytes[0]] + bytes[1..] == bytes;
    }
  }

  lemma MaskStep(st: State, rqs: seq<Request>)
    requires rqs != [] && Feeding(rqs) && st.Ready() && st.streaming
    requires Feeding(rqs[1..]) && Admissible(st, rqs[0]) && AdmissibleAll(Serve(st, rqs[0]).0, rqs[1..])
    requires
      var next := Serve(st, rqs[0]).0;
      && next.Ready()
      && |MaskRun(next.align, next.subsample, next.phase, FeedsOf(rqs[1..]))| == |Incoming(rqs[1..])|
      && Concat(ServeAll(next, rqs[1..]).1) ==
         Masked(Incoming(rqs[1..]), MaskRun(next.align, next.subsample, next.phase, FeedsOf(rqs[1..])))
    requires |MaskRun(st.align, st.subsample, st.phase, FeedsOf(rqs))| == |Incoming(rqs)|
    ensures Concat(ServeAll(st, rqs).1) ==
      Masked(Incoming(rqs), MaskRun(st.align, st.subsample, st.phase, FeedsOf(rqs)))
  {
    hide Masked; hide Kept; hide Mask; hide PhaseAfter; hide AdmissibleAll; hide All;
    FeedStep(st, rqs);
    var (next, out) := Serve(st, rqs[0]);
    var rest, m := FeedsOf(rqs[1..]), MaskRun(next.align, next.subsample, next.phase, FeedsOf(rqs[1..]));
    assert FeedsOf(rqs)[1..] == rest;
    ConcatAppend(out, ServeAll(next, rqs[1..]).1);
    hide Serve;
    if rqs[0].Enqueue? {
      var data := rqs[0].data;
      if st.subsample == 0 {
        MaskedAll(data);
        MaskedConcat(data, Incoming(rqs[1..]), All(|data|), m);
        ConcatCons(data, []);
      } else {
        KeptIsMasked(st.align, st.subsample, st.phase, data);
        MaskedConcat(data, Incoming(rqs[1..]), Mask(st.align, st.subsample, st.phase, |data|), m);
        ConcatCons(Kept(st.align, st.subsample, st.phase, data), []);
      }
    } else {
      assert [] + Incoming(rqs[1..]) == Incoming(rqs[1..]);
    }
  }

  /** Every rate asked for keeps samples whole. */
  predicate WholeRates(align: nat, rqs: seq<Request>) {
    forall i :: 0 <= i < |rqs| && rqs[i].SetRate? ==> WholeRate(align, rqs[i].subsample)
  }

  lemma {:induction false} RatesOfFeeds(align: nat, rqs: seq<Request>)
    requires Feeding(rqs) && WholeRates(align, rqs)
    ensures AllWhole(align, FeedsOf(rqs))
    decreases |rqs|
  {
    hide WholeSamples;
    if rqs != [] {
      RatesOfFeeds(align, rqs[1..]);
    }
  }

  /** Without a return to normal play nothing can be off the beat. */
  lemma {:induction false} FastOnly(align: nat, f: nat, pos: nat, rqs: seq<Request>)
    requires align >= 1 && f >= 1 && Feeding(rqs)
    requires forall i :: 0 <= i < |rqs| && rqs[i].SetRate? ==> rqs[i].subsample >= 1
    ensures OnTheBeat(align, f, pos, FeedsOf(rqs))
    decreases |rqs|
  {
    if rqs != [] {
      assert FeedsOf(rqs)[1..] == FeedsOf(rqs[1..]);
      if rqs[0].Enqueue? {
        FastOnly(align, f, pos + |rqs[0].data|, rqs[1..]);
      } else {
        FastOnly(align, rqs[0].subsample, pos, rqs[1..]);
      }
    }
  }

  /**
    Channel alignment of the decoder.  From the request that begins fast forward on, over any
    buffers and further rates, what is handed down is whole samples, each starting at a
    multiple of `align` from there.
  */
  lemma FastForwardKeepsAlignment(st: State, f: nat, rqs: seq<Request>)
    requires st.streaming && st.Ready() && st.subsample == 0 && f >= 1 && Feeding(rqs)
    requires WholeSamples(st.align, f) && WholeRates(st.align, rqs) && OnTheBeat(st.align, f, 0, FeedsOf(rqs))
    ensures AdmissibleAll(st, [SetRate(f)] + rqs)
    ensures
      var m := MaskRun(st.align, f, Phase(0, 0), FeedsOf(rqs));
      && |m| == |Incoming(rqs)| && Whole(st.align, m)
      && Concat(ServeAll(st, [SetRate(f)] + rqs).1) == Masked(Incoming(rqs), m)
  {
    hide WholeSamples; hide MaskRun; hide Masked; hide AdmissibleAll; hide ServeAll; hide OnTheBeat;
    var next := st.(subsample := f, phase := Phase(0, 0));
    assert Serve(st, SetRate(f)) == (next, []);
    FeedingIsMasked(next, rqs);
    ServeCons(st, SetRate(f), rqs);
    assert [] + ServeAll(next, rqs).1 == ServeAll(next, rqs).1;
    RatesOfFeeds(st.align, rqs);
    RateChangesKeepAlignment(st.align, f, FeedsOf(rqs));
  }

  /** Back to normal play: from there on every buffer is handed down as it is. */
  lemma NormalAgain(st: State, rqs: seq<Request>)
    requires st.streaming && st.Ready() && Buffers(rqs)
    ensures AdmissibleAll(st, [SetRate(0)] + rqs)
    ensures ServeAll(st, [SetRate(0)] + rqs).1 == DataOf(rqs)
  {
    hide AdmissibleAll; hide ServeAll;
    var next := Serve(st, SetRate(0)).0;
    RunningStream(next, rqs);
    ServeCons(st, SetRate(0), rqs);
    assert [] + DataOf(rqs) == DataOf(rqs);
  }

  /**
    A WAV stream with any rate changes while it runs: the bytes handed down are those of the
    payload behind the header that the mask of the run marks, and they are whole samples.
  */
  lemma WavStreamWithRates(st: State, first: Request, rqs: seq<Request>)
    requires !st.streaming && st.phase == Phase(0, 0)
    requires first.Enqueue? && |first.data| >= 44 && first.header.Wav? && first.header.align >= 1
    requires first.configured && first.accepted && Feeding(rqs) && (rqs != [] ==> !first.final)
    ensures AdmissibleAll(st, [first] + rqs)
    ensures
      var align, head := first.header.align, first.data[44..];
      var feeds := [Data(|head|)] + FeedsOf(rqs);
      var m := MaskRun(align, st.subsample, Phase(0, 0), feeds);
      && |m| == |head + Incoming(rqs)|
      && Concat(ServeAll(st, [first] + rqs).1) == Masked(head + Incoming(rqs), m)
      && (WholeRate(align, st.subsample) && WholeRates(align, rqs) && OnTheBeat(align, st.subsample, 0, feeds) ==>
          Whole(align, m))
  {
    hide WholeSamples; hide Masked; hide AdmissibleAll; hide ServeAll; hide Serve; hide Mask; hide Kept;
    hide PhaseAfter; hide OnTheBeat; hide All;
    var align, f, head := first.header.align, st.subsample, first.data[WAV_HEADER_SIZE..];
    HeaderBuffer(st, first);
    var (next, out) := Serve(st, first);
    FeedingIsMasked(next, rqs);
    ServeCons(st, first, rqs);
    ConcatAppend(out, ServeAll(next, rqs).1);
    var feeds := FeedsOf(rqs);
    assert ([Data(|head|)] + feeds)[1..] == feeds;
    HeadMasked(align, f, head, Incoming(rqs), next.phase, feeds, out);
    if WholeRate(align, f) && WholeRates(align, rqs) && OnTheBeat(align, f, 0, [Data(|head|)] + feeds) {
      RatesOfFeeds(align, rqs);
      RateChangesKeepAlignment(align, f, [Data(|head|)] + feeds);
    }
  }

  lemma HeadMasked(
    align: nat, f: nat, head: seq<Byte>, rest: seq<Byte>, ph: Phase, feeds: seq<Feed>, out: seq<seq<Byte>>)
    requires Sound(align, ph) && |MaskRun(align, f, ph, feeds)| == |rest|
    requires if f == 0 then out == [head] && ph == Phase(0, 0)
             else out == [Kept(align, f, Phase(0, 0), head)] && ph == PhaseAfter(align, f, Phase(0, 0), |head|)
    ensures
      var m := MaskRun(align, f, Phase(0, 0), [Data(|head|)] + feeds);
      && |m| == |head + rest|
      && Masked(head + rest, m) == Concat(out) + Masked(rest, MaskRun(align, f, ph, feeds))
  {
    hide Masked; hide Mask; hide Kept; hide PhaseAfter; hide All;
    assert ([Data(|head|)] + feeds)[1..] == feeds;
    if f == 0 {
      MaskedAll(head);
      MaskedConcat(head, rest, All(|head|), MaskRun(align, f, ph, feeds));
      ConcatCons(head, []);
    } else {
      KeptIsMasked(align, f, Phase(0, 0), head);
      MaskedConcat(head, rest, Mask(align, f, Phase(0, 0), |head|), MaskRun(align, f, ph, feeds));
      ConcatCons(Kept(align, f, Phase(0, 0), head), []);
    }
  }

  // ----- One stream after another -----

  lemma {:induction false} PhaseMoves(align: nat, subsample: nat, k: nat, n: nat)
    requires align >= 1 && subsample >= 1
    ensures
      var skipsize := SkipSize(align, subsample);
      PhaseAfter(align, subsample, PhaseAt(align, skipsize, k), n) == PhaseAt(align, skipsize, k + n)
    decreases n
  {
    var skipsize := SkipSize(align, subsample);
    hide SkipSize;
    if n > 0 {
      ModSucc(k, align + skipsize);
      assert Advance(align, subsample, PhaseAt(align, skipsize, k)).1 == PhaseAt(align, skipsize, k + 1);
      PhaseMoves(align, subsample, k + 1, n - 1);
    }
  }

  /** After `n` bytes of a stream nothing is left over exactly at a multiple of the period. */
  lemma LeftOverExactly(align: nat, subsample: nat, n: nat)
    requires align >= 1 && subsample >= 1 && align * (subsample - 1) < 256
    ensures PhaseAfter(align, subsample, Phase(0, 0), n) == Phase(0, 0) <==> n % (align * subsample) == 0
    ensures PhaseAfter(align, subsample, Phase(0, 0), n).npartial < align
  {
    hide SkipSize; hide PhaseAfter;
    PeriodIs(align, subsample);
    ModUnique(0, align + SkipSize(align, subsample), 0, 0);
    PhaseMoves(align, subsample, 0, n);
  }

  lemma PeriodIs(align: nat, subsample: nat)
    requires subsample >= 1 && align * (subsample - 1) < 256
    ensures align + SkipSize(align, subsample) == align * subsample
  {
    assert align * subsample == align * (subsample - 1) + align;
  }

  /** The state behind the buffers of a running stream. */
  lemma {:induction false} BehindBuffers(st: State, rqs: seq<Request>)
    requires Buffers(rqs) && st.Ready() && st.subsample >= 1 && (rqs != [] ==> st.streaming)
    ensures AdmissibleAll(st, rqs)
    ensures ServeAll(st, rqs).0 == st.(
      phase := PhaseAfter(st.align, st.subsample, st.phase, |Concat(DataOf(rqs))|),
      streaming := if rqs == [] then st.streaming else !rqs[|rqs| - 1].final)
    decreases |rqs|
  {
    if rqs != [] {
      var next := Serve(st, rqs[0]).0;
      BehindBuffers(next, rqs[1..]);
      PhaseSum(st.align, st.subsample, st.phase, rqs[0].data, Concat(DataOf(rqs[1..])));
    }
  }

  lemma PhaseSum(align: nat, subsample: nat, ph: Phase, a: seq<Byte>, b: seq<Byte>)
    requires Sound(align, ph) && subsample >= 1
    ensures PhaseAfter(align, subsample, ph, |a + b|) ==
      PhaseAfter(align, subsample, PhaseAfter(align, subsample, ph, |a|), |b|)
  {
    KeptConcat(align, subsample, ph, a, b);
  }

  /** A stream in one buffer: 44 bytes of header and the payload. */
  function Single(align: nat, payload: seq<Byte>): (rq: Request) {
    Enqueue(seq(WAV_HEADER_SIZE, _ => 0 as Byte) + payload, true, Wav(align), true, true)
  }

  /** The second of two streams. */
  lemma SingleArrives(st: State, align: nat, payload: seq<Byte>)
    requires !st.streaming && st.subsample >= 1 && Sound(align, st.phase)
    ensures AdmissibleAll(st, [Single(align, payload)])
    ensures Concat(ServeAll(st, [Single(align, payload)]).1) == Kept(align, st.subsample, st.phase, payload)
  {
    hide Kept; hide PhaseAfter;
    var rq := Single(align, payload);
    assert rq.data[WAV_HEADER_SIZE..] == payload;
    assert Admissible(st, rq);
    var (next, out) := Serve(st, rq);
    assert out == [Kept(align, st.subsample, st.phase, payload)];
    assert [rq][1..] == [] && AdmissibleAll(next, []);
    assert ServeAll(st, [rq]).1 == out + ServeAll(next, []).1 == out;
    ConcatCons(Kept(align, st.subsample, st.phase, payload), []);
  }

  function Period(align: nat, subsample: nat): (n: nat)
    requires align >= 1 && subsample >= 1
    ensures n >= 1 && n == align * subsample
  {
    NonZeroMultiple(subsample, align);
    subsample * align
  }

  /** Whatever a next stream of this alignment holds, it is sub-sampled from its first byte on. */
  ghost predicate StartsFresh(st: State, align: nat) {
    align >= 1 && st.subsample >= 1 && forall payload ::
      && AdmissibleAll(st, [Single(align, payload)])
      && Concat(ServeAll(st, [Single(align, payload)]).1) == Select(payload, 0, align, Period(align, st.subsample))
  }

  /**
    One stream after another.  When a first WAV stream has been played to its final buffer in
    fast forward, a second one is sub-sampled from its first byte on, whatever it holds, if and
    only if the payload of the first was a whole number of periods.
  */
  lemma SecondStreamExactly(st: State, first: Request, rqs: seq<Request>, align2: nat)
    requires !st.streaming && st.phase == Phase(0, 0) && st.subsample >= 2
    requires first.Enqueue? && |first.data| >= WAV_HEADER_SIZE && first.header.Wav? && first.header.align >= 1
    requires first.configured && first.accepted && Buffers(rqs) && (rqs != [] ==> !first.final)
    requires if rqs == [] then first.final else rqs[|rqs| - 1].final
    requires align2 >= 1 && first.header.align * (st.subsample - 1) < 256 && align2 * (st.subsample - 1) < 256
    ensures AdmissibleAll(st, [first] + rqs)
    ensures
      var payload := first.data[WAV_HEADER_SIZE..] + Concat(DataOf(rqs));
      StartsFresh(ServeAll(st, [first] + rqs).0, align2) <==> |payload| % Period(first.header.align, st.subsample) == 0
  {
    hide Serve; hide AdmissibleAll; hide ServeAll; hide PhaseAfter; hide StartsFresh; hide Concat; hide DataOf;
    var align, f := first.header.align, st.subsample;
    var payload := first.data[WAV_HEADER_SIZE..] + Concat(DataOf(rqs));
    BehindStream(st, first, rqs);
    LeftOverExactly(align, f, |payload|);
    var after := ServeAll(st, [first] + rqs).0;
    if Sound(align2, after.phase) {
      FreshExactly(after, align2);
    } else {
      TooMuchLeft(after, align2);
    }
  }

  /** It is what the phase field says. */
  lemma FreshExactly(st: State, align: nat)
    requires !st.streaming && st.subsample >= 2 && Sound(align, st.phase) && align * (st.subsample - 1) < 256
    ensures StartsFresh(st, align) <==> st.phase == Phase(0, 0)
  {
    hide ServeAll; hide AdmissibleAll; hide Kept; hide Select; hide Concat; hide Single; hide Period;
    var f := st.subsample;
    StartsFreshExactly(align, f, st.phase);
    if st.phase == Phase(0, 0) {
      forall p2 ensures AdmissibleAll(st, [Single(align, p2)])
        && Concat(ServeAll(st, [Single(align, p2)]).1) == Select(p2, 0, align, Period(align, f))
      {
        SingleArrives(st, align, p2);
        assert Kept(align, f, st.phase, p2) == Select(p2, 0, align, align * f);
      }
    } else {
      var p2 :| Kept(align, f, st.phase, p2) != Select(p2, 0, align, align * f);
      SingleArrives(st, align, p2);
    }
  }

  /** What is left of a sample is as long as a whole sample of the next stream: that stream has no meaning. */
  lemma TooMuchLeft(st: State, align: nat)
    requires !st.streaming && st.phase.npartial >= align
    ensures !StartsFresh(st, align)
  {
    hide ServeAll; hide Kept; hide Select; hide Concat; hide Period;
    assert [Single(align, [])][0] == Single(align, []);
    assert !Admissible(st, Single(align, []));
    assert !AdmissibleAll(st, [Single(align, [])]);
  }

  /** The state behind a whole stream. */
  lemma BehindStream(st: State, first: Request, rqs: seq<Request>)
    requires !st.streaming && st.phase == Phase(0, 0) && st.subsample >= 1
    requires first.Enqueue? && |first.data| >= WAV_HEADER_SIZE && first.header.Wav? && first.header.align >= 1
    requires first.configured && first.accepted && Buffers(rqs) && (rqs != [] ==> !first.final)
    requires if rqs == [] then first.final else rqs[|rqs| - 1].final
    ensures AdmissibleAll(st, [first] + rqs)
    ensures
      var align, f, head := first.header.align, st.subsample, first.data[WAV_HEADER_SIZE..];
      var after := ServeAll(st, [first] + rqs).0;
      && !after.streaming && after.subsample == f && after.align == align
      && after.phase == PhaseAfter(align, f, Phase(0, 0), |head + Concat(DataOf(rqs))|)
  {
    hide Serve; hide PhaseAfter; hide Kept;
    var align, f, head := first.header.align, st.subsample, first.data[WAV_HEADER_SIZE..];
    HeaderBuffer(st, first);
    var next := Serve(st, first).0;
    BehindBuffers(next, rqs);
    PhaseSum(align, f, Phase(0, 0), head, Concat(DataOf(rqs)));
    assert ([first] + rqs)[0] == first && ([first] + rqs)[1..] == rqs;
  }

  // ----- Any requests whatever -----

  /** Whether the stream is running behind a request. */
  predicate Goes(streaming: bool, rq: Request) {
    !Closes(rq) && (streaming || Opens(rq))
  }

  /** What of a request is meant for the lower driver: a buffer of a running stream, or one behind its header. */
  function Wants(streaming: bool, rq: Request): (bufs: seq<seq<Byte>>) {
    if !rq.Enqueue? then []
    else if streaming then [rq.data]
    else if |rq.data| >= 44 && rq.header.Wav? && rq.configured then [rq.data[44..]]
    else []
  }

  function AllWants(streaming: bool, rqs: seq<Request>): (bufs: seq<seq<Byte>>)
    decreases |rqs|
  {
    if rqs == [] then [] else Wants(streaming, rqs[0]) + AllWants(Goes(streaming, rqs[0]), rqs[1..])
  }

  lemma ServeWants(st: State, rq: Request)
    requires Admissible(st, rq)
    ensures
      var (next, out) := Serve(st, rq);
      && next.streaming == Goes(st.streaming, rq) && |out| == |Wants(st.streaming, rq)|
      && (st.subsample == 0 ==> out == Wants(st.streaming, rq))
      && (out == [] && !(rq.Enqueue? && rq.header.Wav? && |rq.data| >= 44) && !rq.SetRate? ==>
            next == st.(streaming := next.streaming))
      && next.subsample == if rq.SetRate? then rq.subsample else st.subsample
  {
    hide Kept; hide PhaseAfter;
  }

  /**
    Any run of requests, with buffers refused, failing configurations, stops and streams one after
    the other: just the buffers meant for it reach the lower driver, one each, and in normal play
    as they are.
  */
  lemma {:induction false} JustTheWanted(st: State, rqs: seq<Request>)
    requires AdmissibleAll(st, rqs)
    ensures |ServeAll(st, rqs).1| == |AllWants(st.streaming, rqs)|
    ensures st.subsample == 0 && (forall rq :: rq in rqs && rq.SetRate? ==> rq.subsample == 0) ==>
      ServeAll(st, rqs).1 == AllWants(st.streaming, rqs)
    decreases |rqs|
  {
    hide Serve; hide Wants; hide Goes; hide Admissible;
    if rqs != [] {
      ServeWants(st, rqs[0]);
      JustTheWanted(Serve(st, rqs[0]).0, rqs[1..]);
    }
  }
}
