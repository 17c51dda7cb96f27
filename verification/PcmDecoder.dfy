/**
  `pcm_subsample`: sub-sampling in place, a chunk at a time, in the audio buffer itself.
*/
module PcmDecoder {
  import opened Bytes
  import opened PcmSpec
  import opened PcmStream

  /** `struct ap_buffer_s`: the bytes from `curbyte` to `nbytes` are the ones to be played. */
  class Buffer {
    const samp: array<Byte>
    var curbyte: nat
    var nbytes: nat
    var final: bool

    ghost predicate Valid()
      reads this
    {
      curbyte <= nbytes <= samp.Length
    }

    ghost function Bytes(): (s: seq<Byte>)
      requires Valid()
      reads this, samp
    {
      samp[curbyte..nbytes]
    }
  }

  /** The copy loop: `n` bytes down from `src` to `dest`, lowest first. */
  method CopyDown(a: array<Byte>, dest: nat, src: nat, n: nat)
    requires dest <= src && src + n <= a.Length
    modifies a
    ensures a[..dest] == old(a[..dest])
    ensures a[dest..dest + n] == old(a[src..src + n])
    ensures a[src + n..] == old(a[src + n..])
  {
    for i := 0 to n
      invariant forall k :: 0 <= k < dest ==> a[k] == old(a[k])
      invariant forall k :: dest <= k < dest + i ==> a[k] == old(a[k + src - dest])
      invariant forall k :: src + i <= k < a.Length ==> a[k] == old(a[k])
    {
      a[dest + i] := a[src + i];
    }
  }

  class Decoder {
    var align: nat
    var subsample: nat
    var skip: nat
    var npartial: nat

    var streaming: bool

    /** The buffers given to the lower driver, oldest first. */
    var handed: seq<seq<Byte>>

    ghost predicate Ready()
      reads this
    {
      Sound(align, Phase(skip, npartial))
    }

    ghost function CurrentPhase(): Phase
      reads this
    {
      Phase(skip, npartial)
    }

    ghost function Abstract(): State
      reads this
    {
      State(align, subsample, CurrentPhase(), streaming)
    }

    method PassDown(apb: Buffer)
      requires apb.Valid()
      modifies this`handed
      ensures handed == old(handed) + [apb.Bytes()]
    {
      handed := handed + [apb.samp[apb.curbyte..apb.nbytes]];
    }

    /** `pcm_enqueuebuffer`; `ok` is false for a negative return value. */
    method Enqueue(apb: Buffer, header: Header, configured: bool, accepted: bool) returns (ok: bool)
      requires apb.Valid()
      requires Admissible(Abstract(), Request.Enqueue(apb.Bytes(), apb.final, header, configured, accepted))
      modifies this, apb`curbyte, apb`nbytes, apb.samp
      ensures
        var rq := Request.Enqueue(old(apb.Bytes()), apb.final, header, configured, accepted);
        var (next, out) := Serve(old(Abstract()), rq);
        Abstract() == next && handed == old(handed) + out
      ensures ok <==> accepted && handed != old(handed)
    {
      ok := false;
      if streaming {
        if apb.final {
          streaming := false;
        }
        Subsample(apb);
        PassDown(apb);
        return accepted;
      }
      if apb.nbytes - apb.curbyte >= WAV_HEADER_SIZE && header.Wav? {
        align := header.align;
        if !configured {
          return;
        }
        apb.curbyte := apb.curbyte + WAV_HEADER_SIZE;
        assert apb.Bytes() == old(apb.Bytes())[WAV_HEADER_SIZE..];
        Subsample(apb);
        PassDown(apb);
        if accepted {
          streaming := !apb.final;
          return true;
        }
      }
    }

    /** `pcm_subsample_configure`. */
    method Configure(factor: nat)
      requires Admissible(Abstract(), SetRate(factor))
      modifies this`subsample, this`skip, this`npartial
      ensures (Abstract(), []) == Serve(old(Abstract()), SetRate(factor))
    {
      if subsample == 0 {
        if factor != 0 {
          npartial, skip, subsample := 0, 0, factor;
        }
      } else if factor == 0 {
        npartial, skip, subsample := 0, 0, 0;
      } else if subsample != factor {
        subsample := factor;
      }
    }

    /** One round of the main loop: skip ahead, or keep (the beginning of) a sample. */
    method Chunk(samp: array<Byte>, dest: nat, src: nat, srcsize: nat) returns (dest': nat, n: nat)
      requires Ready() && subsample >= 1 && npartial == 0
      requires dest <= src && src + srcsize <= samp.Length && srcsize > 0
      modifies this`skip, this`npartial, samp
      ensures Ready() && 0 < n <= srcsize && (npartial > 0 ==> n == srcsize) && dest' <= src + n
      ensures CurrentPhase() == PhaseAfter(align, subsample, old(CurrentPhase()), n)
      ensures samp[..dest'] == old(samp[..dest]) + Kept(align, subsample, old(CurrentPhase()), old(samp[src..src + n]))
      ensures samp[src + n..] == old(samp[src + n..])
    {
      hide Kept; hide PhaseAfter; hide SkipSize;
      ghost var ph := CurrentPhase();
      if skip > 0 {
        n := if skip < srcsize then skip else srcsize;
        KeptSkip(align, subsample, ph, samp[src..src + n]);
        skip := skip - n;
        dest' := dest;
      } else {
        if srcsize < align {
          n := srcsize;
          npartial := srcsize;
        } else {
          n := align;
          skip := SkipSize(align, subsample);
        }
        KeptSample(align, subsample, ph, samp[src..src + n]);
        CopyDown(samp, dest, src, n);
        dest' := dest + n;
        assert samp[..dest'] == samp[..dest] + samp[dest..dest'];
      }
    }

    /** The end of a sample that began in an earlier buffer. */
    method CompletePartial(apb: Buffer)
      requires Ready() && apb.Valid() && subsample >= 1
      requires npartial > 0 && npartial + |apb.Bytes()| >= align
      modifies this`skip, this`npartial, apb.samp
      ensures Ready() && npartial == 0
      ensures var n := align - old(npartial);
        && CurrentPhase() == PhaseAfter(align, subsample, old(CurrentPhase()), n)
        && apb.samp[..n] == Kept(align, subsample, old(CurrentPhase()), old(apb.Bytes())[..n])
        && apb.samp[apb.curbyte + n..apb.nbytes] == old(apb.Bytes())[n..]
    {
      hide Kept; hide PhaseAfter; hide SkipSize;
      var copysize := align - npartial;
      ghost var input := apb.Bytes();
      KeptSample(align, subsample, CurrentPhase(), input[..copysize]);
      if apb.curbyte > 0 {
        CopyDown(apb.samp, 0, apb.curbyte, copysize);
      }
      npartial := 0;
      skip := SkipSize(align, subsample);
      assert apb.samp[apb.curbyte + copysize..apb.nbytes]
          == apb.samp[apb.curbyte + copysize..][..apb.nbytes - apb.curbyte - copysize];
    }

    /** `pcm_subsample`: the buffer is left holding exactly the bytes that are kept. */
    method Subsample(apb: Buffer)
      requires Ready() && apb.Valid()
      modifies this`skip, this`npartial, apb`curbyte, apb`nbytes, apb.samp
      ensures Ready() && apb.Valid()
      ensures subsample == 0 ==> apb.Bytes() == old(apb.Bytes()) && CurrentPhase() == old(CurrentPhase())
      ensures subsample != 0 ==>
        && apb.Bytes() == Kept(align, subsample, old(CurrentPhase()), old(apb.Bytes()))
        && CurrentPhase() == PhaseAfter(align, subsample, old(CurrentPhase()), |old(apb.Bytes())|)
    {
      if subsample == 0 {
        return;
      }
      ghost var input, ph := apb.Bytes(), CurrentPhase();
      var dest: nat, done: nat := 0, 0;
      assert input[..0] == [];
      if npartial > 0 {
        if npartial + apb.nbytes - apb.curbyte < align {
          KeptSample(align, subsample, ph, input);
          npartial := npartial + (apb.nbytes - apb.curbyte);
          return;
        }
        dest := align - npartial;
        done := dest;
        CompletePartial(apb);
      }
      dest := MainLoop(apb, dest, done, input, ph);
      assert input[..|input|] == input;
      apb.curbyte := 0;
      apb.nbytes := dest;
    }

    /** `done` bytes of the input are processed, what was kept of them fills the first `dest` bytes. */
    ghost predicate Progress(apb: Buffer, dest: nat, done: nat, input: seq<Byte>, ph: Phase)
      reads this, apb, apb.samp
    {
      && Ready() && apb.Valid() && subsample >= 1 && Sound(align, ph)
      && |input| == apb.nbytes - apb.curbyte && done <= |input| && dest <= apb.curbyte + done
      && (npartial > 0 ==> done == |input|)
      && CurrentPhase() == PhaseAfter(align, subsample, ph, done)
      && apb.samp[..dest] == Kept(align, subsample, ph, input[..done])
      && apb.samp[apb.curbyte + done..apb.nbytes] == input[done..]
    }

    method Round(apb: Buffer, dest: nat, done: nat, ghost input: seq<Byte>, ghost ph: Phase)
      returns (dest': nat, done': nat)
      requires Progress(apb, dest, done, input, ph) && apb.curbyte + done < apb.nbytes
      modifies this`skip, this`npartial, apb.samp
      ensures Progress(apb, dest', done', input, ph) && done' > done
    {
      hide Kept; hide PhaseAfter;
      var n;
      ghost var samp := apb.samp[..];
      dest', n := Chunk(apb.samp, dest, apb.curbyte + done, apb.nbytes - apb.curbyte - done);
      Slices(samp, apb.samp[..], apb.curbyte + done, n, apb.nbytes, input[done..]);
      Further(align, subsample, ph, input, done, n);
      done' := done + n;
    }

    method MainLoop(apb: Buffer, dest0: nat, done0: nat, ghost input: seq<Byte>, ghost ph: Phase) returns (dest: nat)
      requires Progress(apb, dest0, done0, input, ph)
      modifies this`skip, this`npartial, apb.samp
      ensures Progress(apb, dest, |input|, input, ph)
    {
      hide Kept; hide PhaseAfter;
      var done := done0;
      dest := dest0;
      while apb.curbyte + done < apb.nbytes
        invariant Progress(apb, dest, done, input, ph)
      {
        dest, done := Round(apb, dest, done, input, ph);
      }
    }
  }

  /** `n` more bytes of the input. */
  lemma Further(align: nat, subsample: nat, ph: Phase, input: seq<Byte>, done: nat, n: nat)
    requires Sound(align, ph) && subsample >= 1 && done + n <= |input|
    ensures
      var next := PhaseAfter(align, subsample, ph, done);
      && PhaseAfter(align, subsample, ph, done + n) == PhaseAfter(align, subsample, next, n)
      && Kept(align, subsample, ph, input[..done + n]) ==
        Kept(align, subsample, ph, input[..done]) + Kept(align, subsample, next, input[done..][..n])
    ensures input[done..][n..] == input[done + n..]
  {
    hide Kept; hide PhaseAfter;
    assert input[..done + n] == input[..done] + input[done..][..n];
    KeptConcat(align, subsample, ph, input[..done], input[done..][..n]);
  }

  lemma Slices(before: seq<Byte>, after: seq<Byte>, src: nat, n: nat, hi: nat, rest: seq<Byte>)
    requires src + n <= hi <= |before| == |after|
    requires before[src..hi] == rest && before[src + n..] == after[src + n..]
    ensures before[src..src + n] == rest[..n] && after[src + n..hi] == rest[n..]
  {
    assert after[src + n..hi] == after[src + n..][..hi - src - n];
    assert before[src..hi][n..] == before[src + n..][..hi - src - n];
  }
}
