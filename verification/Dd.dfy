/**
  The transfer loop of `dd`: `dd_read`, `dd_write` and the loop of `cmd_dd`, over files that
  may read and write short.
*/
module Dd {
  import opened Bytes
  import opened DdSpec

  /** How one `read` or `write` call goes: it transfers some bytes, at least one if it can, or fails. */
  datatype Io = Short(n: nat) | Fault

  const UINT32: nat := 0x1_0000_0000

  /** The two open files and what they will do next. */
  class Files {
    const input: seq<Byte>
    var rpos: nat
    var output: seq<Byte>
    var readPlan: seq<Io>
    var writePlan: seq<Io>

    constructor (input: seq<Byte>, readPlan: seq<Io>, writePlan: seq<Io>)
      ensures this.input == input && rpos == 0 && output == []
    {
      this.input, rpos, output := input, 0, [];
      this.readPlan, this.writePlan := readPlan, writePlan;
    }

    function Left(): (s: seq<Byte>)
      requires rpos <= |input|
      reads this
    {
      input[rpos..]
    }

    ghost predicate Faultless()
      reads this
    {
      Fault !in readPlan && Fault !in writePlan
    }

    method Read(buffer: array<Byte>, at: nat, n: nat) returns (got: int)
      requires rpos <= |input| && at + n <= buffer.Length
      modifies this`rpos, this`readPlan, buffer
      ensures rpos <= |input| && -1 <= got <= n
      ensures got < 0 ==> rpos == old(rpos)
      ensures got >= 0 ==> (got == 0 <==> n == 0 || old(Left()) == [])
      ensures got >= 0 ==> old(Left()) == buffer[at..at + got] + Left() && |Left()| == |old(Left())| - got
      ensures buffer[..at] == old(buffer[..at])
      ensures Fault !in old(readPlan) ==> got >= 0 && Fault !in readPlan
    {
      var io := if readPlan == [] then Short(n) else readPlan[0];
      readPlan := if readPlan == [] then [] else readPlan[1..];
      if n == 0 {
        return 0;
      }
      if io == Fault {
        return -1;
      }
      var k := Min(n, |input| - rpos);
      if io.n < k {
        k := if io.n == 0 then 1 else io.n;
      }
      forall i | 0 <= i < k {
        buffer[at + i] := input[rpos + i];
      }
      rpos := rpos + k;
      got := k;
      assert buffer[at..at + k] == input[old(rpos)..rpos];
    }

    method Write(buffer: array<Byte>, at: nat, n: nat) returns (put: int)
      requires at + n <= buffer.Length && n > 0
      modifies this`output, this`writePlan
      ensures put == -1 || 0 < put <= n
      ensures output == old(output) + if put < 0 then [] else buffer[at..at + put]
      ensures Fault !in old(writePlan) ==> put >= 0 && Fault !in writePlan
    {
      var io := if writePlan == [] then Short(n) else writePlan[0];
      writePlan := if writePlan == [] then [] else writePlan[1..];
      if io == Fault {
        return -1;
      }
      put := if io.n == 0 then 1 else Min(n, io.n);
      output := output + buffer[at..at + put];
    }
  }

  lemma Parts(all: seq<Byte>, head: seq<Byte>, rest: seq<Byte>)
    requires all == head + rest
    ensures all[..|head|] == head && all[|head|..] == rest
  {
  }

  lemma Regroup(buffer: seq<Byte>, head: seq<Byte>, left: seq<Byte>, left': seq<Byte>, n: nat, got: nat)
    requires n + got <= |buffer| && buffer[..n] == head && left == buffer[n..n + got] + left'
    ensures head + left == buffer[..n + got] + left'
  {
    assert buffer[..n + got] == buffer[..n] + buffer[n..n + got];
  }

  class Transfer {
    const files: Files
    const buffer: array<Byte>
    const sectsize: nat
    var nbytes: nat
    var nsectors: nat
    var sector: nat
    const skip: nat
    var eof: bool

    ghost predicate Valid()
      reads this, files
    {
      files.rpos <= |files.input| && buffer.Length == sectsize
    }

    constructor (files: Files, sectsize: nat, count: nat, skip: nat)
      requires files.rpos <= |files.input|
      ensures Valid() && this.files == files && this.sectsize == sectsize && this.skip == skip
      ensures nsectors == count && sector == 0 && !eof && fresh(buffer)
    {
      this.files, this.sectsize, this.skip := files, sectsize, skip;
      buffer := new Byte[sectsize];
      nbytes, nsectors, sector, eof := 0, count, 0, false;
    }

    /** `dd_read`: as much of a sector as there is. */
    method ReadSector() returns (ok: bool)
      requires Valid()
      modifies this`nbytes, this`eof, files`rpos, files`readPlan, buffer
      ensures Valid() && nbytes <= sectsize
      ensures ok ==> nbytes == Min(sectsize, |old(files.Left())|)
      ensures ok ==> buffer[..nbytes] == old(files.Left())[..nbytes] && files.Left() == old(files.Left())[nbytes..]
      ensures ok ==> (eof <==> old(eof) || nbytes == 0)
      ensures Fault !in old(files.readPlan) ==> ok && Fault !in files.readPlan
    {
      nbytes := 0;
      var more := true;
      while more
        invariant Valid() && nbytes <= sectsize && eof == old(eof)
        invariant old(files.Left()) == buffer[..nbytes] + files.Left()
        invariant !more ==> nbytes == sectsize || files.Left() == []
        invariant Fault !in old(files.readPlan) ==> Fault !in files.readPlan
        decreases sectsize - nbytes, more
      {
        ghost var head, left := buffer[..nbytes], files.Left();
        var got := files.Read(buffer, nbytes, sectsize - nbytes);
        if got < 0 {
          return false;
        }
        Regroup(buffer[..], head, left, files.Left(), nbytes, got);
        nbytes := nbytes + got;
        more := nbytes < sectsize && got > 0;
      }
      Parts(old(files.Left()), buffer[..nbytes], files.Left());
      eof := eof || nbytes == 0;
      ok := true;
    }

    /** `dd_write`: the whole sector, however short the writes are. */
    method WriteSector() returns (ok: bool)
      requires Valid() && sectsize > 0
      modifies files`output, files`writePlan
      ensures ok ==> files.output == old(files.output) + buffer[..]
      ensures old(files.output) <= files.output <= old(files.output) + buffer[..]
      ensures Fault !in old(files.writePlan) ==> ok && Fault !in files.writePlan
    {
      var written := 0;
      while written < sectsize
        invariant 0 <= written <= sectsize
        invariant files.output == old(files.output) + buffer[..written]
        invariant Fault !in old(files.writePlan) ==> Fault !in files.writePlan
      {
        var put := files.Write(buffer, written, sectsize - written);
        if put < 0 {
          return false;
        }
        assert buffer[..written + put] == buffer[..written] + buffer[written..written + put];
        written := written + put;
      }
      assert buffer[..written] == buffer[..];
      ok := true;
    }

    /** Padding at the end of the input. */
    method Pad()
      requires Valid() && nbytes <= sectsize
      modifies buffer
      ensures buffer[..] == old(buffer[..nbytes]) + Zeros(sectsize - nbytes)
    {
      var i := nbytes;
      while i < sectsize
        invariant nbytes <= i <= sectsize
        invariant forall k :: 0 <= k < nbytes ==> buffer[k] == old(buffer[k])
        invariant forall k :: nbytes <= k < i ==> buffer[k] == 0
      {
        buffer[i] := 0;
        i := i + 1;
      }
    }

    /** Where the loop stands after `done` sectors. */
    ghost predicate Underway(all: seq<seq<Byte>>, done: nat, count: nat, before: seq<Byte>)
      reads this, files
    {
      && Valid() && all == Sectors(files.input, sectsize) && done <= |all| && sector == done % UINT32
      && Sectors(files.Left(), sectsize) == all[done..]
      && (eof ==> done == |all|)
      && files.output == before + Concat(Written(all, skip, done, UINT32))
      && nsectors + |Written(all, skip, done, UINT32)| == count
    }

    /** The next sector, padded, is in the buffer, or the input has ended. */
    method Fetch(ghost rest: seq<seq<Byte>>) returns (ok: bool)
      requires Valid() && !eof && Sectors(files.Left(), sectsize) == rest
      modifies this`nbytes, this`eof, files`rpos, files`readPlan, buffer
      ensures Valid()
      ensures ok && eof ==> rest == [] && files.Left() == old(files.Left())
      ensures ok && !eof ==> rest != [] && buffer[..] == rest[0] && Sectors(files.Left(), sectsize) == rest[1..]
      ensures ok && !eof ==> sectsize > 0 && |files.Left()| < |old(files.Left())|
      ensures Fault !in old(files.readPlan) ==> ok && Fault !in files.readPlan
    {
      hide Sectors;
      ghost var left := files.Left();
      ok := ReadSector();
      if !ok {
        return;
      }
      if eof {
        NoSectors(left, sectsize);
      } else {
        NextSector(left, sectsize);
        Pad();
      }
    }

    /** One round of the loop. */
    method Step(ghost all: seq<seq<Byte>>, ghost done: nat, ghost count: nat, ghost before: seq<Byte>)
      returns (ok: bool, ghost done': nat)
      requires Underway(all, done, count, before) && !eof && nsectors > 0
      modifies this`nbytes, this`eof, this`sector, this`nsectors, files`rpos, files`output, files`readPlan,
        files`writePlan, buffer
      ensures ok ==> Underway(all, done', count, before) && |files.Left()| <= |old(files.Left())|
      ensures ok ==> eof || |files.Left()| < |old(files.Left())|
      ensures !ok ==> before <= files.output <= before + Concat(Copied(all, skip, count, UINT32))
      ensures old(files.Faultless()) ==> ok && files.Faultless()
    {
      hide Concat; hide Sectors; hide Copied;
      SoFarCopied(all, skip, done, count, UINT32);
      done' := done;
      ok := Fetch(all[done..]);
      if !ok || eof {
        return;
      }
      assert all[done..][1..] == all[done + 1..];
      if sector >= skip {
        WriteNext(all, skip, done, UINT32);
        SoFarCopied(all, skip, done + 1, count, UINT32);
        ghost var written := files.output;
        ok := WriteSector();
        assert written + all[done] == before + Concat(Written(all, skip, done + 1, UINT32));
        if !ok {
          return;
        }
        nsectors := nsectors - 1;
      } else {
        SkipNext(all, skip, done, UINT32);
      }
      NextCount(done);
      sector := (sector + 1) % UINT32;
      done' := done + 1;
    }

    /**
      The loop of `cmd_dd`: for every way in which reads and writes come short, the output is
      just the sectors to be copied of the padded input; a fault leaves a prefix of it.
    */
    method Copy() returns (ok: bool)
      requires Valid() && files.rpos == 0 && sector == 0 && !eof
      modifies this`nbytes, this`eof, this`sector, this`nsectors, files`rpos, files`output, files`readPlan,
        files`writePlan, buffer
      ensures
        var copied := Concat(Copied(Sectors(files.input, sectsize), skip, old(nsectors), UINT32));
        && (ok ==> files.output == old(files.output) + copied)
        && old(files.output) <= files.output <= old(files.output) + copied
      ensures ok && |Sectors(files.input, sectsize)| <= 4294967296 ==>
        files.output == old(files.output) + Concat(Wanted(Sectors(files.input, sectsize), skip, old(nsectors)))
      ensures old(files.Faultless()) ==> ok
    {
      hide Concat; hide Sectors; hide Copied; hide Wanted;
      ghost var all, count, before, done := Sectors(files.input, sectsize), nsectors, files.output, 0;
      ConcatEmpty();
      assert files.Left() == files.input && all[0..] == all;
      while !eof && nsectors > 0
        invariant Underway(all, done, count, before) && (old(files.Faultless()) ==> files.Faultless())
        decreases |files.Left()|, !eof
      {
        ok, done := Step(all, done, count, before);
        if !ok {
          return;
        }
      }
      SoFarCopied(all, skip, done, count, UINT32);
      if |all| <= 4294967296 {
        CopiedWhen(all, skip, count, UINT32);
      }
      ok := true;
    }
  }

  lemma NextCount(done: nat)
    ensures (done % UINT32 + 1) % UINT32 == (done + 1) % UINT32
  {
  }
}
