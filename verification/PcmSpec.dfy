/**
  Fast forward in the PCM decoder, byte by byte.

  The decoder keeps one sample of `align` bytes and drops the next `subsample - 1` samples.
  What it has to do with the next byte depends on two small fields only: how many bytes are
  still to be dropped and how much of the current sample has been kept.
*/
module PcmSpec {
  import opened Bytes

  datatype Phase = Phase(skip: nat, npartial: nat)

  /** The number of bytes between samples, as it is stored in the 8-bit `skip` field. */
  function SkipSize(align: nat, subsample: nat): (n: nat)
    requires subsample >= 1
    ensures n < 256
  {
    (align * (subsample - 1)) % 256
  }

  /** A phase that can occur: a partial sample is shorter than a sample and nothing is skipped in it. */
  predicate Sound(align: nat, ph: Phase) {
    ph.npartial < align && (ph.npartial > 0 ==> ph.skip == 0)
  }

  /** One byte: is it kept, and what comes next. */
  function Advance(align: nat, subsample: nat, ph: Phase): (r: (bool, Phase))
    requires Sound(align, ph) && subsample >= 1
    ensures Sound(align, r.1)
  {
    if ph.skip > 0 then (false, Phase(ph.skip - 1, ph.npartial))
    else if ph.npartial + 1 == align then (true, Phase(SkipSize(align, subsample), 0))
    else (true, Phase(0, ph.npartial + 1))
  }

  /** The phase after `n` more bytes. */
  function PhaseAfter(align: nat, subsample: nat, ph: Phase, n: nat): (r: Phase)
    requires Sound(align, ph) && subsample >= 1
    ensures Sound(align, r)
    decreases n
  {
    if n == 0 then ph else PhaseAfter(align, subsample, Advance(align, subsample, ph).1, n - 1)
  }

  /** Which of the next `n` bytes are kept. */
  function Mask(align: nat, subsample: nat, ph: Phase, n: nat): (m: seq<bool>)
    requires Sound(align, ph) && subsample >= 1
    ensures |m| == n
    decreases n
  {
    if n == 0 then []
    else
      var (keep, next) := Advance(align, subsample, ph);
      [keep] + Mask(align, subsample, next, n - 1)
  }

  /** The kept bytes of a buffer. */
  function Kept(align: nat, subsample: nat, ph: Phase, bytes: seq<Byte>): (r: seq<Byte>)
    requires Sound(align, ph) && subsample >= 1
    decreases |bytes|
  {
    if bytes == [] then []
    else
      var (keep, next) := Advance(align, subsample, ph);
      (if keep then [bytes[0]] else []) + Kept(align, subsample, next, bytes[1..])
  }

  lemma {:induction false} KeptConcat(align: nat, subsample: nat, ph: Phase, a: seq<Byte>, b: seq<Byte>)
    requires Sound(align, ph) && subsample >= 1
    ensures PhaseAfter(align, subsample, ph, |a + b|)
         == PhaseAfter(align, subsample, PhaseAfter(align, subsample, ph, |a|), |b|)
    ensures Kept(align, subsample, ph, a + b)
         == Kept(align, subsample, ph, a) + Kept(align, subsample, PhaseAfter(align, subsample, ph, |a|), b)
    decreases |a|
  {
    if a == [] {
      assert a + b == b;
    } else {
      assert (a + b)[1..] == a[1..] + b;
      KeptConcat(align, subsample, Advance(align, subsample, ph).1, a[1..], b);
    }
  }

  /** Bytes that are all to be skipped. */
  lemma {:induction false} KeptSkip(align: nat, subsample: nat, ph: Phase, a: seq<Byte>)
    requires Sound(align, ph) && subsample >= 1 && |a| <= ph.skip
    ensures Kept(align, subsample, ph, a) == []
    ensures PhaseAfter(align, subsample, ph, |a|) == Phase(ph.skip - |a|, ph.npartial)
    decreases |a|
  {
    if a != [] {
      KeptSkip(align, subsample, Advance(align, subsample, ph).1, a[1..]);
    }
  }

  /** Bytes of one sample. */
  lemma {:induction false} KeptSample(align: nat, subsample: nat, ph: Phase, a: seq<Byte>)
    requires Sound(align, ph) && subsample >= 1 && ph.skip == 0 && ph.npartial + |a| <= align
    ensures Kept(align, subsample, ph, a) == a
    ensures PhaseAfter(align, subsample, ph, |a|) ==
            if ph.npartial + |a| == align then Phase(SkipSize(align, subsample), 0) else Phase(0, ph.npartial + |a|)
    decreases |a|
  {
    if a != [] {
      assert a == [a[0]] + a[1..];
      if |a| > 1 {
        KeptSample(align, subsample, Advance(align, subsample, ph).1, a[1..]);
      } else {
        assert a[1..] == [];
      }
    }
  }
}
