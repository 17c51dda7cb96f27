/**
  Fast forward over a whole stream: buffer boundaries do not matter, rate changes keep the
  channels aligned, and a WAV stream arrives below as its payload.
*/
module PcmStream {
  import opened Bytes
  import opened PcmSpec

  /** The bytes whose index (the first one is `k`) modulo `period` is below `align`. */
  function Select(bytes: seq<Byte>, k: nat, align: nat, period: nat): (r: seq<Byte>)
    requires period >= 1
    decreases |bytes|
  {
    if bytes == [] then []
    else (if k % period < align then [bytes[0]] else []) + Select(bytes[1..], k + 1, align, period)
  }

  lemma ModSucc(k: nat, p: nat)
    requires p >= 1
    ensures (k + 1) % p == if k % p + 1 == p then 0 else k % p + 1
  {
    var q, r := k / p, k % p;
    assert k == q * p + r;
    if r + 1 == p {
      assert k + 1 == (q + 1) * p + 0;
      ModUnique(k + 1, p, q + 1, 0);
    } else {
      ModUnique(k + 1, p, q, r + 1);
    }
  }

  lemma NonZeroMultiple(d: int, p: int)
    requires p >= 1
    ensures d >= 1 ==> d * p >= p
    ensures d <= -1 ==> d * p <= -p
  {
    if d >= 1 {
      assert d * p == (d - 1) * p + p;
    } else if d <= -1 {
      assert d * p == (d + 1) * p - p;
    }
  }

  lemma ModUnique(k: nat, p: nat, q: nat, r: nat)
    requires p >= 1 && k == q * p + r && r < p
    ensures k % p == r
  {
    var q' := k / p;
    assert k == q' * p + k % p;
    assert (q - q') * p == q * p - q' * p;
    NonZeroMultiple(q - q', p);
  }

  /** The phase before byte `k` of a stream. */
  function PhaseAt(align: nat, skipsize: nat, k: nat): (ph: Phase)
    requires align >= 1
    ensures Sound(align, ph)
  {
    var r := k % (align + skipsize);
    if r < align then Phase(0, r) else Phase(align + skipsize - r, 0)
  }

  lemma {:induction false} KeptIsSelect(align: nat, subsample: nat, k: nat, bytes: seq<Byte>)
    requires align >= 1 && subsample >= 1
    ensures
      var skipsize := SkipSize(align, subsample);
      Kept(align, subsample, PhaseAt(align, skipsize, k), bytes) == Select(bytes, k, align, align + skipsize)
    decreases |bytes|
  {
    var skipsize := SkipSize(align, subsample);
    hide SkipSize;
    if bytes != [] {
      ModSucc(k, align + skipsize);
      assert Advance(align, subsample, PhaseAt(align, skipsize, k)).1 == PhaseAt(align, skipsize, k + 1);
      KeptIsSelect(align, subsample, k + 1, bytes[1..]);
    }
  }

  lemma {:induction false} SelectAll(bytes: seq<Byte>, k: nat, align: nat, period: nat)
    requires 1 <= align && k + |bytes| <= align <= period
    ensures Select(bytes, k, align, period) == bytes
    decreases |bytes|
  {
    if bytes != [] {
      ModUnique(k, period, 0, k);
      SelectAll(bytes[1..], k + 1, align, period);
    }
  }

  lemma {:induction false} SelectNone(bytes: seq<Byte>, k: nat, align: nat, period: nat)
    requires 1 <= align <= k && k + |bytes| <= period
    ensures Select(bytes, k, align, period) == []
    decreases |bytes|
  {
    if bytes != [] {
      ModUnique(k, period, 0, k);
      SelectNone(bytes[1..], k + 1, align, period);
    }
  }

  lemma {:induction false} SelectConcat(a: seq<Byte>, b: seq<Byte>, k: nat, align: nat, period: nat)
    requires period >= 1
    ensures Select(a + b, k, align, period) == Select(a, k, align, period) + Select(b, k + |a|, align, period)
    decreases |a|
  {
    if a == [] {
      assert a + b == b;
    } else {
      assert (a + b)[1..] == a[1..] + b;
      SelectConcat(a[1..], b, k + 1, align, period);
    }
  }

  /** A stream of `period + 1` bytes and what is selected from it, for a period of at least `period`. */
  lemma SelectOnePeriod(align: nat, short: nat, period: nat)
    requires 1 <= align <= short <= period
    ensures |Select(seq(short + 1, i => 0), 0, align, period)| == align + if short == period then 1 else 0
  {
    var a: seq<Byte>, b: seq<Byte>, c: seq<Byte> := seq(align, i => 0), seq(short - align, i => 0), [0];
    assert seq(short + 1, i => 0) == a + (b + c);
    SelectConcat(a, b + c, 0, align, period);
    SelectConcat(b, c, align, align, period);
    SelectAll(a, 0, align, period);
    SelectNone(b, align, align, period);
    if short == period {
      ModUnique(short, period, 1, 0);
    } else {
      SelectNone(c, short, align, period);
    }
  }

  /**
    Fast forward by a factor keeps one sample in `subsample`, on every stream, if and only if
    the skip count fits its 8-bit field.
  */
  lemma FactorExact(align: nat, subsample: nat)
    requires align >= 1 && subsample >= 1
    ensures (forall bytes :: Kept(align, subsample, Phase(0, 0), bytes) == Select(bytes, 0, align, align * subsample))
            <==> align * (subsample - 1) < 256
  {
    hide Kept; hide Select;
    assert align * subsample == align * (subsample - 1) + align;
    if align * (subsample - 1) < 256 {
      forall bytes ensures Kept(align, subsample, Phase(0, 0), bytes) == Select(bytes, 0, align, align * subsample) {
        KeptFromStart(align, subsample, bytes);
      }
    } else {
      var short := align + SkipSize(align, subsample);
      var bytes: seq<Byte> := seq(short + 1, i => 0);
      KeptFromStart(align, subsample, bytes);
      SelectOnePeriod(align, short, short);
      SelectOnePeriod(align, short, align * subsample);
      assert Kept(align, subsample, Phase(0, 0), bytes) != Select(bytes, 0, align, align * subsample);
    }
  }

  lemma KeptFromStart(align: nat, subsample: nat, bytes: seq<Byte>)
    requires align >= 1 && subsample >= 1
    ensures Kept(align, subsample, Phase(0, 0), bytes) == Select(bytes, 0, align, align + SkipSize(align, subsample))
  {
    hide SkipSize;
    ModUnique(0, align + SkipSize(align, subsample), 0, 0);
    KeptIsSelect(align, subsample, 0, bytes);
  }

  /**
    Nothing resets the phase when a new stream begins: a stream is sub-sampled from its first
    byte on if and only if the one before did not end in the middle of a sample or of a gap.
  */
  lemma StartsFreshExactly(align: nat, subsample: nat, ph: Phase)
    requires Sound(align, ph) && subsample >= 2 && align * (subsample - 1) < 256
    ensures (forall bytes :: Kept(align, subsample, ph, bytes) == Select(bytes, 0, align, align * subsample))
            <==> ph == Phase(0, 0)
  {
    hide Kept; hide Select;
    NonZeroMultiple(subsample - 1, align);
    assert align * subsample == align * (subsample - 1) + align;
    if ph == Phase(0, 0) {
      FactorExact(align, subsample);
    } else if ph.skip > 0 {
      var bytes: seq<Byte> := [0];
      KeptSkip(align, subsample, ph, bytes);
      SelectAll(bytes, 0, align, align * subsample);
    } else {
      var a: seq<Byte>, b: seq<Byte> := seq(align - ph.npartial, i => 0), [0];
      KeptConcat(align, subsample, ph, a, b);
      KeptSample(align, subsample, ph, a);
      KeptSkip(align, subsample, Phase(SkipSize(align, subsample), 0), b);
      SelectAll(a + b, 0, align, align * subsample);
    }
  }

  /** The buffers that come out of `pcm_subsample`, one for each that goes in. */
  function Played(align: nat, subsample: nat, ph: Phase, bufs: seq<seq<Byte>>): (r: seq<seq<Byte>>)
    requires Sound(align, ph) && subsample >= 1
    decreases |bufs|
  {
    if bufs == [] then []
    else [Kept(align, subsample, ph, bufs[0])]
         + Played(align, subsample, PhaseAfter(align, subsample, ph, |bufs[0]|), bufs[1..])
  }

  lemma {:induction false} PlayedIsKept(align: nat, subsample: nat, ph: Phase, bufs: seq<seq<Byte>>)
    requires Sound(align, ph) && subsample >= 1
    ensures Concat(Played(align, subsample, ph, bufs)) == Kept(align, subsample, ph, Concat(bufs))
    decreases |bufs|
  {
    if bufs != [] {
      PlayedIsKept(align, subsample, PhaseAfter(align, subsample, ph, |bufs[0]|), bufs[1..]);
      KeptConcat(align, subsample, ph, bufs[0], Concat(bufs[1..]));
    }
  }

  /**
    Buffer boundaries do not matter.  However a stream is cut into buffers (empty and tiny
    ones included), the bytes played are those whose stream index modulo the period is
    below `align`.
  */
  lemma CuttingDoesNotMatter(align: nat, subsample: nat, bufs: seq<seq<Byte>>)
    requires align >= 1 && subsample >= 1 && align * (subsample - 1) < 256
    ensures Concat(Played(align, subsample, Phase(0, 0), bufs)) == Select(Concat(bufs), 0, align, align * subsample)
  {
    PlayedIsKept(align, subsample, Phase(0, 0), bufs);
    FactorExact(align, subsample);
  }

  /** What happens to a decoder that plays a stream: a buffer, or a new rate, where 0 stands for normal play. */
  datatype Feed = Data(size: nat) | Rate(subsample: nat)

  /** The skip count for this rate is a whole number of samples. */
  predicate WholeSamples(align: nat, subsample: nat) {
    align >= 1 && subsample >= 1 && SkipSize(align, subsample) % align == 0
  }

  /** A skip count that fits is whole, and so is any other for an alignment that divides 256. */
  lemma WholeSamplesWhen(align: nat, subsample: nat)
    requires align >= 1 && subsample >= 1
    requires align * (subsample - 1) < 256 || 256 % align == 0
    ensures WholeSamples(align, subsample)
  {
    hide SkipSize;
    if align * (subsample - 1) < 256 {
      SkipFits(align, subsample);
    } else {
      SkipDivides(align, subsample);
    }
  }

  lemma SkipFits(align: nat, subsample: nat)
    requires align >= 1 && subsample >= 1 && align * (subsample - 1) < 256
    ensures SkipSize(align, subsample) % align == 0
  {
    ModUnique(align * (subsample - 1), align, subsample - 1, 0);
  }

  lemma SkipDivides(align: nat, subsample: nat)
    requires align >= 1 && subsample >= 1 && 256 % align == 0
    ensures SkipSize(align, subsample) % align == 0
  {
    var k, d := subsample - 1, 256 / align;
    var q := (align * k) / 256;
    Regroup(align, k, d, q, SkipSize(align, subsample));
    ModUnique(SkipSize(align, subsample), align, k - d * q, 0);
  }

  lemma Regroup(align: nat, k: nat, d: nat, q: nat, r: nat)
    requires align >= 1 && align * d == 256 && align * k == 256 * q + r
    ensures d * q <= k && r == (k - d * q) * align
  {
    assert 256 * q == (align * d) * q == align * (d * q);
    assert r == align * (k - d * q);
    if k < d * q {
      NonZeroMultiple(k - d * q, align);
    }
  }

  /** Samples stay whole at every rate exactly for these alignments, to which those of all supported formats belong. */
  lemma EveryRateWhole(align: nat)
    requires align >= 1
    ensures (forall f: nat :: f >= 1 ==> WholeSamples(align, f)) <==> 256 % align == 0 || align % 256 == 0
  {
    hide WholeSamples;
    if 256 % align == 0 {
      forall f: nat | f >= 1 ensures WholeSamples(align, f) {
        WholeSamplesWhen(align, f);
      }
    } else if align % 256 == 0 {
      forall f: nat | f >= 1 ensures WholeSamples(align, f) {
        NoSkip(align, f);
      }
    } else {
      var f := BrokenRate(align);
      assert !WholeSamples(align, f);
    }
  }

  lemma NoSkip(align: nat, subsample: nat)
    requires align >= 1 && subsample >= 1 && align % 256 == 0
    ensures WholeSamples(align, subsample)
  {
    var n := align * (subsample - 1);
    assert n == 256 * ((align / 256) * (subsample - 1));
    ModUnique(n, 256, (align / 256) * (subsample - 1), 0);
    ModUnique(0, align, 0, 0);
  }

  /** For any other alignment there is a rate that breaks samples. */
  lemma BrokenRate(align: nat) returns (f: nat)
    requires align >= 1 && 256 % align != 0 && align % 256 != 0
    ensures f >= 1 && !WholeSamples(align, f)
  {
    var r;
    if align > 256 {
      f, r := 2, align % 256;
      assert align * (f - 1) == align;
    } else {
      var q := 256 / align;
      f, r := q + 2, align - 256 % align;
      assert align * (f - 1) == align * q + align == 256 + r;
      ModUnique(256 + r, 256, 1, r);
    }
    assert SkipSize(align, f) == r;
    ModUnique(r, align, 0, r);
  }

  /** Normal play keeps everything. */
  function All(n: nat): (m: seq<bool>)
    ensures |m| == n && forall i :: 0 <= i < n ==> m[i]
  {
    seq(n, _ => true)
  }

  /** Fast forward begins or ends. */
  predicate Switches(subsample: nat, r: nat) {
    (subsample == 0) != (r == 0)
  }

  /** Which bytes of the stream are kept over a run of buffers and rate changes. */
  function MaskRun(align: nat, subsample: nat, ph: Phase, feeds: seq<Feed>): (m: seq<bool>)
    requires Sound(align, ph)
    decreases |feeds|
  {
    if feeds == [] then []
    else
      match feeds[0]
      case Data(n) =>
        if subsample == 0 then All(n) + MaskRun(align, subsample, ph, feeds[1..])
        else
          var next := PhaseAfter(align, subsample, ph, n);
          Mask(align, subsample, ph, n) + MaskRun(align, subsample, next, feeds[1..])
      case Rate(r) => MaskRun(align, r, if Switches(subsample, r) then Phase(0, 0) else ph, feeds[1..])
  }

  /** Every byte of a sample so far has the fate of the sample's first byte. */
  predicate Whole(align: nat, m: seq<bool>)
    requires align >= 1
  {
    forall i :: 0 <= i < |m| ==> m[i] == m[i - i % align]
  }

  /** The samples seen so far are whole, and the phase knows where in a sample the stream stands. */
  predicate Aligned(align: nat, m: seq<bool>, ph: Phase)
    requires align >= 1
  {
    && Whole(align, m)
    && (ph.npartial > 0 ==> |m| % align == ph.npartial && m[|m| - ph.npartial])
    && (ph.npartial == 0 ==> (|m| + ph.skip) % align == 0)
    && (ph.npartial == 0 && |m| % align != 0 ==> !m[|m| - |m| % align])
  }

  lemma ModSum(a: nat, b: nat, p: nat)
    requires p >= 1 && a % p == 0 && b % p == 0
    ensures (a + b) % p == 0
  {
    assert a == a / p * p && b == b / p * p;
    assert (a / p + b / p) * p == a / p * p + b / p * p;
    ModUnique(a + b, p, a / p + b / p, 0);
  }

  lemma AlignedAdvance(align: nat, subsample: nat, m: seq<bool>, ph: Phase)
    requires WholeSamples(align, subsample) && Sound(align, ph) && Aligned(align, m, ph)
    ensures
      var (keep, next) := Advance(align, subsample, ph);
      Aligned(align, m + [keep], next)
  {
    hide SkipSize;
    var t := |m|;
    ModSucc(t, align);
    if ph.skip == 0 && ph.npartial + 1 == align {
      assert (t + 1) % align == 0;
      ModSum(t + 1, SkipSize(align, subsample), align);
    }
  }

  lemma {:induction false} AlignedMask(align: nat, subsample: nat, m: seq<bool>, ph: Phase, n: nat)
    requires WholeSamples(align, subsample) && Sound(align, ph) && Aligned(align, m, ph)
    ensures Aligned(align, m + Mask(align, subsample, ph, n), PhaseAfter(align, subsample, ph, n))
    decreases n
  {
    hide Aligned;
    if n == 0 {
      assert m + [] == m;
    } else {
      var (keep, next) := Advance(align, subsample, ph);
      AlignedAdvance(align, subsample, m, ph);
      AlignedMask(align, subsample, m + [keep], next, n - 1);
      assert m + Mask(align, subsample, ph, n) == (m + [keep]) + Mask(align, subsample, next, n - 1);
    }
  }

  /** Fast forward begins and ends only between samples; `pos` bytes have come before. */
  predicate OnTheBeat(align: nat, subsample: nat, pos: nat, feeds: seq<Feed>)
    requires align >= 1
    decreases |feeds|
  {
    feeds == [] ||
      match feeds[0]
      case Data(n) => OnTheBeat(align, subsample, pos + n, feeds[1..])
      case Rate(r) => (Switches(subsample, r) ==> pos % align == 0) && OnTheBeat(align, r, pos, feeds[1..])
  }

  /** The rate is normal play, or keeps samples whole. */
  predicate WholeRate(align: nat, subsample: nat) {
    subsample == 0 || WholeSamples(align, subsample)
  }

  predicate AllWhole(align: nat, feeds: seq<Feed>) {
    forall f :: f in feeds && f.Rate? ==> WholeRate(align, f.subsample)
  }

  /** The samples seen so far are whole, in fast forward as in normal play. */
  predicate InStep(align: nat, subsample: nat, m: seq<bool>, ph: Phase)
    requires align >= 1
  {
    if subsample == 0 then Whole(align, m) && (|m| % align != 0 ==> m[|m| - |m| % align])
    else Aligned(align, m, ph)
  }

  lemma SwitchInStep(align: nat, subsample: nat, r: nat, m: seq<bool>, ph: Phase)
    requires align >= 1 && InStep(align, subsample, m, ph) && Switches(subsample, r) && |m| % align == 0
    ensures InStep(align, r, m, Phase(0, 0))
  {
  }

  lemma {:induction false} NormalInStep(align: nat, m: seq<bool>, ph: Phase, n: nat)
    requires align >= 1 && InStep(align, 0, m, ph)
    ensures InStep(align, 0, m + All(n), ph)
    decreases n
  {
    if n == 0 {
      assert m + All(n) == m;
    } else {
      ModSucc(|m|, align);
      assert InStep(align, 0, m + [true], ph);
      NormalInStep(align, m + [true], ph, n - 1);
      assert m + All(n) == (m + [true]) + All(n - 1);
    }
  }

  lemma {:induction false} AlignedRun(align: nat, subsample: nat, m: seq<bool>, ph: Phase, feeds: seq<Feed>)
    requires WholeRate(align, subsample) && Sound(align, ph) && InStep(align, subsample, m, ph)
    requires AllWhole(align, feeds) && OnTheBeat(align, subsample, |m|, feeds)
    ensures Whole(align, m + MaskRun(align, subsample, ph, feeds))
    decreases |feeds|, 0
  {
    if feeds == [] {
      assert m + [] == m;
      InStepMeansWhole(align, subsample, m, ph);
    } else {
      hide WholeSamples; hide InStep; hide Whole;
      match feeds[0]
      case Data(n) => AlignedData(align, subsample, m, ph, n, feeds[1..]);
      case Rate(r) =>
        assert feeds[0] in feeds;
        if Switches(subsample, r) {
          SwitchInStep(align, subsample, r, m, ph);
          AlignedRun(align, r, m, Phase(0, 0), feeds[1..]);
        } else {
          SameStep(align, subsample, r, m, ph);
          AlignedRun(align, r, m, ph, feeds[1..]);
        }
    }
  }

  lemma InStepMeansWhole(align: nat, subsample: nat, m: seq<bool>, ph: Phase)
    requires align >= 1 && InStep(align, subsample, m, ph)
    ensures Whole(align, m)
  {
  }

  lemma SameStep(align: nat, subsample: nat, r: nat, m: seq<bool>, ph: Phase)
    requires align >= 1 && InStep(align, subsample, m, ph) && !Switches(subsample, r)
    ensures InStep(align, r, m, ph)
  {
  }

  lemma {:induction false} AlignedData(
    align: nat, subsample: nat, m: seq<bool>, ph: Phase, n: nat, feeds: seq<Feed>)
    requires WholeRate(align, subsample) && Sound(align, ph) && InStep(align, subsample, m, ph)
    requires AllWhole(align, feeds) && OnTheBeat(align, subsample, |m| + n, feeds)
    ensures Whole(align, m + MaskRun(align, subsample, ph, [Data(n)] + feeds))
    decreases |feeds|, 1
  {
    hide WholeSamples; hide Whole; hide Mask; hide PhaseAfter; hide InStep;
    var all := [Data(n)] + feeds;
    assert all[0] == Data(n) && all[1..] == feeds;
    if subsample == 0 {
      NormalInStep(align, m, ph, n);
      AlignedRun(align, 0, m + All(n), ph, feeds);
      assert m + (All(n) + MaskRun(align, 0, ph, feeds)) == (m + All(n)) + MaskRun(align, 0, ph, feeds);
    } else {
      var head, next := Mask(align, subsample, ph, n), PhaseAfter(align, subsample, ph, n);
      FastInStep(align, subsample, m, ph, n);
      AlignedRun(align, subsample, m + head, next, feeds);
      assert m + (head + MaskRun(align, subsample, next, feeds)) ==
        (m + head) + MaskRun(align, subsample, next, feeds);
    }
  }

  lemma FastInStep(align: nat, subsample: nat, m: seq<bool>, ph: Phase, n: nat)
    requires WholeSamples(align, subsample) && Sound(align, ph) && InStep(align, subsample, m, ph)
    ensures InStep(align, subsample, m + Mask(align, subsample, ph, n), PhaseAfter(align, subsample, ph, n))
  {
    AlignedMask(align, subsample, m, ph, n);
  }

  /**
    Channel alignment.  Over any interleaving of buffers and rates, normal play included, in which
    fast forward begins and ends between samples, samples are kept or dropped as a whole and
    start at multiples of `align`.
  */
  lemma RateChangesKeepAlignment(align: nat, subsample: nat, feeds: seq<Feed>)
    requires align >= 1 && WholeRate(align, subsample) && AllWhole(align, feeds)
    requires OnTheBeat(align, subsample, 0, feeds)
    ensures Whole(align, MaskRun(align, subsample, Phase(0, 0), feeds))
  {
    hide OnTheBeat; hide AllWhole; hide WholeSamples; hide Whole;
    assert InStep(align, subsample, [], Phase(0, 0)) by { AlignedAtStart(align); StartsInStep(align); }
    AlignedRun(align, subsample, [], Phase(0, 0), feeds);
    assert [] + MaskRun(align, subsample, Phase(0, 0), feeds) == MaskRun(align, subsample, Phase(0, 0), feeds);
  }

  lemma StartsInStep(align: nat)
    requires align >= 1
    ensures Whole(align, [])
  {
  }

  /** Fast forward that begins behind `k` bytes of normal play keeps samples whole exactly if `k` is a multiple. */
  lemma SwitchExactly(align: nat, f: nat, k: nat)
    requires WholeSamples(align, f) && SkipSize(align, f) > 0
    ensures (forall n: nat :: Whole(align, MaskRun(align, 0, Phase(0, 0), [Data(k), Rate(f), Data(n)])))
      <==> k % align == 0
  {
    hide Whole; hide MaskRun; hide SkipSize;
    if k % align == 0 {
      forall n: nat ensures Whole(align, MaskRun(align, 0, Phase(0, 0), [Data(k), Rate(f), Data(n)])) {
        BeginsOnTheBeat(align, f, k, n);
        RateChangesKeepAlignment(align, 0, [Data(k), Rate(f), Data(n)]);
      }
    } else {
      OffBeatSwitch(align, f, k);
    }
  }

  lemma BeginsOnTheBeat(align: nat, f: nat, k: nat, n: nat)
    requires WholeSamples(align, f) && k % align == 0
    ensures
      var feeds := [Data(k), Rate(f), Data(n)];
      AllWhole(align, feeds) && OnTheBeat(align, 0, 0, feeds)
  {
    var feeds := [Data(k), Rate(f), Data(n)];
    assert feeds[1..] == [Rate(f), Data(n)] && feeds[1..][1..] == [Data(n)] && [Data(n)][1..] == [];
    assert OnTheBeat(align, f, k + n, []);
    assert OnTheBeat(align, f, k, [Data(n)]);
    assert OnTheBeat(align, 0, k, feeds[1..]);
  }

  lemma ThreeFeeds(align: nat, f: nat, k: nat, n: nat)
    requires align >= 1 && f >= 1
    ensures MaskRun(align, 0, Phase(0, 0), [Data(k), Rate(f), Data(n)]) == All(k) + Mask(align, f, Phase(0, 0), n)
  {
    hide Mask; hide PhaseAfter;
    var feeds := [Data(k), Rate(f), Data(n)];
    assert feeds[1..] == [Rate(f), Data(n)] && feeds[1..][1..] == [Data(n)] && [Data(n)][1..] == [];
    var next, fast := PhaseAfter(align, f, Phase(0, 0), n), Mask(align, f, Phase(0, 0), n);
    assert MaskRun(align, f, next, []) == [];
    assert MaskRun(align, f, Phase(0, 0), [Data(n)]) == fast + [] == fast;
    assert MaskRun(align, 0, Phase(0, 0), feeds[1..]) == fast;
  }

  lemma OffBeatSwitch(align: nat, f: nat, k: nat)
    requires align >= 1 && f >= 1 && k % align != 0 && SkipSize(align, f) > 0
    ensures !Whole(align, MaskRun(align, 0, Phase(0, 0), [Data(k), Rate(f), Data(align + 1)]))
  {
    hide Mask; hide MaskRun; hide SkipSize;
    ThreeFeeds(align, f, k, align + 1);
    var m, i, r := MaskRun(align, 0, Phase(0, 0), [Data(k), Rate(f), Data(align + 1)]), k + align, k % align;
    var period := align + SkipSize(align, f);
    MaskAt(align, f, 0, align + 1, align);
    MaskAt(align, f, 0, align + 1, align - r);
    ModUnique(align, period, 0, align);
    ModUnique(align - r, period, 0, align - r);
    ModUnique(0, period, 0, 0);
    ModUnique(i, align, k / align + 1, r);
    assert !m[i] && m[i - i % align];
  }

  /** The mask says which bytes are kept. */
  function Masked(bytes: seq<Byte>, m: seq<bool>): (r: seq<Byte>)
    requires |bytes| == |m|
  {
    if bytes == [] then [] else (if m[0] then [bytes[0]] else []) + Masked(bytes[1..], m[1..])
  }

  lemma {:induction false} KeptIsMasked(align: nat, subsample: nat, ph: Phase, bytes: seq<Byte>)
    requires Sound(align, ph) && subsample >= 1
    ensures Kept(align, subsample, ph, bytes) == Masked(bytes, Mask(align, subsample, ph, |bytes|))
    decreases |bytes|
  {
    if bytes != [] {
      KeptIsMasked(align, subsample, Advance(align, subsample, ph).1, bytes[1..]);
    }
  }

  lemma {:induction false} MaskAt(align: nat, subsample: nat, k: nat, n: nat, i: nat)
    requires align >= 1 && subsample >= 1 && i < n
    ensures
      var skipsize := SkipSize(align, subsample);
      Mask(align, subsample, PhaseAt(align, skipsize, k), n)[i] == ((k + i) % (align + skipsize) < align)
    decreases n
  {
    var skipsize := SkipSize(align, subsample);
    hide SkipSize;
    ModSucc(k, align + skipsize);
    if i > 0 {
      assert Advance(align, subsample, PhaseAt(align, skipsize, k)).1 == PhaseAt(align, skipsize, k + 1);
      MaskAt(align, subsample, k + 1, n - 1, i - 1);
    }
  }

  /** One rate keeps samples whole on every stream if and only if its skip count is a whole number of samples. */
  lemma AlignmentExact(align: nat, subsample: nat)
    requires align >= 1 && subsample >= 1
    ensures (forall n :: Whole(align, Mask(align, subsample, Phase(0, 0), n))) <==> WholeSamples(align, subsample)
  {
    hide Mask; hide SkipSize; hide Aligned;
    if WholeSamples(align, subsample) {
      forall n ensures Whole(align, Mask(align, subsample, Phase(0, 0), n)) {
        assert Aligned(align, [], Phase(0, 0)) by { AlignedAtStart(align); }
        AlignedMask(align, subsample, [], Phase(0, 0), n);
        var m := Mask(align, subsample, Phase(0, 0), n);
        AlignedMeansWhole(align, [] + m, PhaseAfter(align, subsample, Phase(0, 0), n));
        assert [] + Mask(align, subsample, Phase(0, 0), n) == Mask(align, subsample, Phase(0, 0), n);
      }
    } else {
      BrokenSample(align, subsample);
    }
  }

  lemma AlignedAtStart(align: nat)
    requires align >= 1
    ensures Aligned(align, [], Phase(0, 0))
  {
    ModUnique(0, align, 0, 0);
  }

  lemma AlignedMeansWhole(align: nat, m: seq<bool>, ph: Phase)
    requires align >= 1 && Aligned(align, m, ph)
    ensures Whole(align, m)
  {
  }

  lemma OffBeat(align: nat, skipsize: nat)
    requires align >= 1 && skipsize % align != 0
    ensures
      var t := align + skipsize;
      t % align == skipsize % align && t % t == 0 && (t - t % align) % t == t - t % align >= align
  {
    var t, q, r := align + skipsize, skipsize / align, skipsize % align;
    assert skipsize == q * align + r;
    assert (q + 1) * align == q * align + align;
    ModUnique(t, align, q + 1, r);
    NonZeroMultiple(q + 1, align);
    ModUnique(t, t, 1, 0);
    ModUnique(t - r, t, 0, t - r);
  }

  lemma BrokenSample(align: nat, subsample: nat)
    requires align >= 1 && subsample >= 1 && SkipSize(align, subsample) % align != 0
    ensures !Whole(align, Mask(align, subsample, Phase(0, 0), align + SkipSize(align, subsample) + 1))
  {
    hide Mask; hide SkipSize;
    var skipsize := SkipSize(align, subsample);
    var t := align + skipsize;
    OffBeat(align, skipsize);
    ModUnique(0, t, 0, 0);
    MaskAt(align, subsample, 0, t + 1, t);
    MaskAt(align, subsample, 0, t + 1, t - t % align);
  }

  const WAV_HEADER_SIZE: nat := 44

  /** What `pcm_parsewav` finds at the start of a buffer: nothing, or a header with this alignment. */
  datatype Header = NoHeader | Wav(align: nat)

  /** A request to the decoder; `configured` and `accepted` are the lower driver's answers. */
  datatype Request =
    | Enqueue(data: seq<Byte>, final: bool, header: Header, configured: bool, accepted: bool)
    | SetRate(subsample: nat)
    | Stop
    | Shutdown

  datatype State = State(align: nat, subsample: nat, phase: Phase, streaming: bool)
  {
    /** The sub-sampler can run. */
    predicate Ready() {
      Sound(align, phase)
    }

    function Filter(data: seq<Byte>): (r: (seq<Byte>, State))
      requires Ready()
    {
      if subsample == 0 then (data, this)
      else (Kept(align, subsample, phase, data), this.(phase := PhaseAfter(align, subsample, phase, |data|)))
    }
  }

  /** A header must describe samples longer than what is left over from an earlier stream. */
  predicate Admissible(st: State, rq: Request) {
    && (st.streaming ==> st.Ready())
    && (st.phase.npartial > 0 ==> st.phase.skip == 0)
    && (rq.Enqueue? && rq.header.Wav? && !st.streaming ==> st.phase.npartial < rq.header.align)
  }

  /** The new state and the buffers handed to the lower driver. */
  function Serve(st: State, rq: Request): (r: (State, seq<seq<Byte>>))
    requires Admissible(st, rq)
    ensures r.0.streaming ==> r.0.Ready()
    ensures r.0.phase.npartial > 0 ==> r.0.phase.skip == 0
  {
    match rq
    case Stop => (st.(streaming := false), [])
    case Shutdown => (st.(streaming := false), [])
    case SetRate(f) =>
      if (st.subsample == 0) == (f == 0) then (st.(subsample := f), [])
      else (st.(subsample := f, phase := Phase(0, 0)), [])
    case Enqueue(data, final, header, configured, accepted) =>
      if st.streaming then
        var (bytes, next) := st.Filter(data);
        (next.(streaming := !final), [bytes])
      else if |data| >= WAV_HEADER_SIZE && header.Wav? then
        var begun := st.(align := header.align);
        if !configured then (begun, [])
        else
          var (bytes, next) := begun.Filter(data[WAV_HEADER_SIZE..]);
          (next.(streaming := accepted && !final), [bytes])
      else (st, [])
  }

  predicate AdmissibleAll(st: State, rqs: seq<Request>)
    decreases |rqs|
  {
    rqs != [] ==> Admissible(st, rqs[0]) && AdmissibleAll(Serve(st, rqs[0]).0, rqs[1..])
  }

  function ServeAll(st: State, rqs: seq<Request>): (r: (State, seq<seq<Byte>>))
    requires AdmissibleAll(st, rqs)
    decreases |rqs|
  {
    if rqs == [] then (st, [])
    else
      var (next, out) := Serve(st, rqs[0]);
      var (last, rest) := ServeAll(next, rqs[1..]);
      (last, out + rest)
  }

  /** A buffer that the decoder takes for the start of a stream that goes on. */
  predicate Opens(rq: Request) {
    && rq.Enqueue? && |rq.data| >= WAV_HEADER_SIZE && rq.header.Wav?
    && rq.configured && rq.accepted && !rq.final
  }

  predicate Closes(rq: Request) {
    rq.Stop? || rq.Shutdown? || (rq.Enqueue? && rq.final)
  }

  ghost predicate NoneCloses(rqs: seq<Request>, from: nat) {
    forall j :: from <= j < |rqs| ==> !Closes(rqs[j])
  }

  /** Some request opened a stream and none since has closed it. */
  ghost predicate OpenSince(rqs: seq<Request>) {
    exists i :: 0 <= i < |rqs| && Opens(rqs[i]) && NoneCloses(rqs, i + 1)
  }

  lemma OpenSinceCons(rqs: seq<Request>)
    requires rqs != []
    ensures NoneCloses(rqs, 0) <==> !Closes(rqs[0]) && NoneCloses(rqs[1..], 0)
    ensures OpenSince(rqs) <==> OpenSince(rqs[1..]) || (Opens(rqs[0]) && NoneCloses(rqs[1..], 0))
  {
    var rest := rqs[1..];
    assert NoneCloses(rqs, 1) <==> NoneCloses(rest, 0) by {
      assert forall j :: 1 <= j < |rqs| ==> rqs[j] == rest[j - 1];
      assert forall j :: 0 <= j < |rest| ==> rest[j] == rqs[j + 1];
    }
    if OpenSince(rest) {
      var i :| 0 <= i < |rest| && Opens(rest[i]) && NoneCloses(rest, i + 1);
      assert forall j :: i + 2 <= j < |rqs| ==> rqs[j] == rest[j - 1];
      assert Opens(rqs[i + 1]) && NoneCloses(rqs, i + 2);
    }
    if OpenSince(rqs) {
      var i :| 0 <= i < |rqs| && Opens(rqs[i]) && NoneCloses(rqs, i + 1);
      if i > 0 {
        assert forall j :: i <= j < |rest| ==> rest[j] == rqs[j + 1];
        assert Opens(rest[i - 1]) && NoneCloses(rest, i);
      }
    }
  }

  /** `streaming` is true exactly from an accepted header until a FINAL buffer, stop or shutdown. */
  lemma {:induction false} StreamingExactly(st: State, rqs: seq<Request>)
    requires AdmissibleAll(st, rqs)
    ensures ServeAll(st, rqs).0.streaming <==> OpenSince(rqs) || (st.streaming && NoneCloses(rqs, 0))
    decreases |rqs|
  {
    if rqs != [] {
      OpenSinceCons(rqs);
      StreamingExactly(Serve(st, rqs[0]).0, rqs[1..]);
    }
  }

  /** Buffers of a running stream, of which only the last one may be final. */
  predicate Buffers(rqs: seq<Request>) {
    && (forall i :: 0 <= i < |rqs| ==> rqs[i].Enqueue?)
    && (forall i :: 0 <= i < |rqs| - 1 ==> !rqs[i].final)
  }

  function DataOf(rqs: seq<Request>): (r: seq<seq<Byte>>)
    requires Buffers(rqs)
  {
    if rqs == [] then [] else [rqs[0].data] + DataOf(rqs[1..])
  }

  lemma {:induction false} RunningStream(st: State, rqs: seq<Request>)
    requires Buffers(rqs) && st.Ready() && (rqs != [] ==> st.streaming)
    ensures AdmissibleAll(st, rqs)
    ensures ServeAll(st, rqs).1 ==
      if st.subsample == 0 then DataOf(rqs) else Played(st.align, st.subsample, st.phase, DataOf(rqs))
    decreases |rqs|
  {
    if rqs != [] {
      RunningStream(Serve(st, rqs[0]).0, rqs[1..]);
    }
  }

  /**
    A WAV stream arrives below as its payload.  The header buffer and the buffers after it,
    cut anywhere, hand down the bytes behind the header, sub-sampled by the factor in force.
  */
  lemma WavStreamArrives(st: State, first: Request, rqs: seq<Request>)
    requires !st.streaming && st.phase == Phase(0, 0)
    requires first.Enqueue? && |first.data| >= 44 && first.header.Wav? && first.header.align >= 1
    requires first.configured && first.accepted
    requires Buffers(rqs) && (rqs != [] ==> !first.final)
    requires st.subsample >= 1 ==> first.header.align * (st.subsample - 1) < 256
    ensures AdmissibleAll(st, [first] + rqs)
    ensures
      var payload := first.data[44..] + Concat(DataOf(rqs));
      Concat(ServeAll(st, [first] + rqs).1) ==
        if st.subsample == 0 then payload
        else Select(payload, 0, first.header.align, first.header.align * st.subsample)
  {
    hide Select; hide Serve; hide AdmissibleAll; hide ServeAll; hide Played; hide Concat; hide DataOf;
    var align, f, head := first.header.align, st.subsample, first.data[WAV_HEADER_SIZE..];
    var next, bufs := Serve(st, first).0, DataOf(rqs);
    HeaderBuffer(st, first);
    RunningStream(next, rqs);
    ServeCons(st, first, rqs);
    if f >= 1 {
      CuttingDoesNotMatter(align, f, [head] + bufs);
      PlayedCons(align, f, Phase(0, 0), head, bufs);
    }
    ConcatCons(head, bufs);
  }

  /** The buffer with the header. */
  lemma HeaderBuffer(st: State, first: Request)
    requires !st.streaming && st.phase == Phase(0, 0)
    requires first.Enqueue? && |first.data| >= WAV_HEADER_SIZE && first.header.Wav? && first.header.align >= 1
    requires first.configured && first.accepted
    ensures Admissible(st, first)
    ensures
      var (next, out) := Serve(st, first);
      var align, f, head := first.header.align, st.subsample, first.data[WAV_HEADER_SIZE..];
      && next.Ready() && next.align == align && next.subsample == f && next.streaming == !first.final
      && (f == 0 ==> out == [head] && next.phase == Phase(0, 0))
      && (f >= 1 ==>
        && out == [Kept(align, f, Phase(0, 0), head)]
        && next.phase == PhaseAfter(align, f, Phase(0, 0), |head|))
  {
  }

  lemma ServeCons(st: State, rq: Request, rqs: seq<Request>)
    requires Admissible(st, rq) && AdmissibleAll(Serve(st, rq).0, rqs)
    ensures AdmissibleAll(st, [rq] + rqs)
    ensures ServeAll(st, [rq] + rqs).1 == Serve(st, rq).1 + ServeAll(Serve(st, rq).0, rqs).1
  {
    hide Serve; hide Admissible;
    assert ([rq] + rqs)[0] == rq && ([rq] + rqs)[1..] == rqs;
  }

  lemma PlayedCons(align: nat, subsample: nat, ph: Phase, head: seq<Byte>, bufs: seq<seq<Byte>>)
    requires Sound(align, ph) && subsample >= 1
    ensures Played(align, subsample, ph, [head] + bufs) ==
      [Kept(align, subsample, ph, head)] + Played(align, subsample, PhaseAfter(align, subsample, ph, |head|), bufs)
  {
    assert ([head] + bufs)[0] == head && ([head] + bufs)[1..] == bufs;
  }
}
