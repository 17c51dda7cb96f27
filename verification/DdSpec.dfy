/**
  What `dd` has to produce: the input cut into sectors, the last one padded with zeros.
*/
module DdSpec {
  import opened Bytes

  function Zeros(n: nat): (z: seq<Byte>)
    ensures |z| == n && forall i :: 0 <= i < n ==> z[i] == 0
  {
    seq(n, _ => 0)
  }

  function Min(a: nat, b: nat): (m: nat) {
    if a < b then a else b
  }

  /** The sectors of an input; the last one is filled up with zeros. */
  function Sectors(input: seq<Byte>, size: nat): (r: seq<seq<Byte>>)
    ensures forall i :: 0 <= i < |r| ==> |r[i]| == size
    decreases |input|
  {
    if input == [] || size == 0 then []
    else
      var n := Min(size, |input|);
      [input[..n] + Zeros(size - n)] + Sectors(input[n..], size)
  }

  /** The sectors from `skip` on, at most `count` of them. */
  function Wanted(ss: seq<seq<Byte>>, skip: nat, count: nat): (r: seq<seq<Byte>>) {
    if skip >= |ss| then [] else if skip + count >= |ss| then ss[skip..] else ss[skip..skip + count]
  }

  /** The whole input, padded, is what the sectors put together again. */
  lemma {:induction false} SectorsCoverInput(input: seq<Byte>, size: nat)
    requires size > 0
    ensures input <= Concat(Sectors(input, size))
    ensures |Concat(Sectors(input, size))| - |input| < size
    ensures forall i :: |input| <= i < |Concat(Sectors(input, size))| ==> Concat(Sectors(input, size))[i] == 0
    decreases |input|
  {
    if input != [] {
      var n := Min(size, |input|);
      SectorsCoverInput(input[n..], size);
      var head, rest := input[..n] + Zeros(size - n), Concat(Sectors(input[n..], size));
      assert Concat(Sectors(input, size)) == head + rest;
      if n < size {
        assert input[n..] == [] && rest == [];
      } else {
        assert head == input[..n];
        assert input == input[..n] + input[n..];
      }
    }
  }

  /** A run that reads the whole input writes exactly the input, padded to whole sectors. */
  lemma FullCopy(input: seq<Byte>, size: nat, count: nat)
    requires size > 0 && count >= |Sectors(input, size)|
    ensures
      var out := Concat(Wanted(Sectors(input, size), 0, count));
      input <= out && |out| - |input| < size && forall i :: |input| <= i < |out| ==> out[i] == 0
  {
    var ss := Sectors(input, size);
    assert Wanted(ss, 0, count) == ss;
    SectorsCoverInput(input, size);
  }

  /** Sector `k` is written when its number, as the counter shows it, is not below `skip`. */
  predicate Takes(k: nat, skip: nat, wrap: nat)
    requires wrap > 0
  {
    k % wrap >= skip
  }

  lemma TakesEarly(k: nat, skip: nat, wrap: nat)
    requires wrap > 0 && (k < wrap || skip == 0)
    ensures Takes(k, skip, wrap) <==> k >= skip
  {
  }

  /** What the loop writes of the first `done` sectors, with a sector counter that wraps round at `wrap`. */
  function Written(ss: seq<seq<Byte>>, skip: nat, done: nat, wrap: nat): (r: seq<seq<Byte>>)
    requires done <= |ss| && wrap > 0
  {
    if done == 0 then []
    else Written(ss, skip, done - 1, wrap) + if Takes(done - 1, skip, wrap) then [ss[done - 1]] else []
  }

  /** What the loop writes in all: it stops after `count` sectors. */
  function Copied(ss: seq<seq<Byte>>, skip: nat, count: nat, wrap: nat): (r: seq<seq<Byte>>)
    requires wrap > 0
  {
    var w := Written(ss, skip, |ss|, wrap);
    if |w| <= count then w else w[..count]
  }

  lemma {:induction false} WrittenGrows(ss: seq<seq<Byte>>, skip: nat, k: nat, n: nat, wrap: nat)
    requires k <= n <= |ss| && wrap > 0
    ensures Written(ss, skip, k, wrap) <= Written(ss, skip, n, wrap)
    decreases n
  {
    if k < n {
      WrittenGrows(ss, skip, k, n - 1, wrap);
    }
  }

  lemma SoFarCopied(ss: seq<seq<Byte>>, skip: nat, done: nat, count: nat, wrap: nat)
    requires done <= |ss| && wrap > 0 && |Written(ss, skip, done, wrap)| <= count
    ensures Concat(Written(ss, skip, done, wrap)) <= Concat(Copied(ss, skip, count, wrap))
    ensures done == |ss| || |Written(ss, skip, done, wrap)| == count ==>
      Written(ss, skip, done, wrap) == Copied(ss, skip, count, wrap)
  {
    hide Concat;
    WrittenGrows(ss, skip, done, |ss|, wrap);
    var some, all := Written(ss, skip, done, wrap), Copied(ss, skip, count, wrap);
    assert all[..|some|] == some;
    ConcatPrefix(all, |some|);
  }

  lemma WriteNext(ss: seq<seq<Byte>>, skip: nat, done: nat, wrap: nat)
    requires done < |ss| && wrap > 0 && Takes(done, skip, wrap)
    ensures Concat(Written(ss, skip, done + 1, wrap)) == Concat(Written(ss, skip, done, wrap)) + ss[done]
    ensures |Written(ss, skip, done + 1, wrap)| == |Written(ss, skip, done, wrap)| + 1
  {
    hide Concat;
    var next := Written(ss, skip, done + 1, wrap);
    assert next[..|next| - 1] == Written(ss, skip, done, wrap);
    ConcatLast(next);
  }

  lemma SkipNext(ss: seq<seq<Byte>>, skip: nat, done: nat, wrap: nat)
    requires done < |ss| && wrap > 0 && !Takes(done, skip, wrap)
    ensures Written(ss, skip, done + 1, wrap) == Written(ss, skip, done, wrap)
  {
  }

  lemma {:induction false} WrittenBeforeWrap(ss: seq<seq<Byte>>, skip: nat, done: nat, wrap: nat)
    requires done <= |ss| && wrap > 0 && (done <= wrap || skip == 0)
    ensures Written(ss, skip, done, wrap) == if done <= skip then [] else ss[skip..done]
  {
    hide Takes;
    if done > 0 {
      WrittenBeforeWrap(ss, skip, done - 1, wrap);
      TakesEarly(done - 1, skip, wrap);
    }
  }

  /** Sector number `wrap` is taken for sector 0. */
  lemma {:induction false} WrappedIsSkipped(ss: seq<seq<Byte>>, skip: nat, done: nat, wrap: nat, x: seq<Byte>)
    requires wrap < |ss| && done <= |ss| && 0 < skip < wrap
    requires forall i :: 0 <= i < |ss| && i != wrap ==> ss[i] != x
    ensures x !in Written(ss, skip, done, wrap)
  {
    if done > 0 {
      WrappedIsSkipped(ss, skip, done - 1, wrap, x);
      assert wrap % wrap == 0;
    }
  }

  /** Sectors of one size are the sectors of what they put together. */
  lemma {:induction false} SectorsOfConcat(ss: seq<seq<Byte>>, size: nat)
    requires size > 0 && forall i :: 0 <= i < |ss| ==> |ss[i]| == size
    ensures Sectors(Concat(ss), size) == ss
    decreases |ss|
  {
    if ss != [] {
      var input, rest := Concat(ss), Concat(ss[1..]);
      SectorsOfConcat(ss[1..], size);
      assert input[..size] == ss[0] && input[size..] == rest && |input| >= size;
      NextSector(input, size);
      assert ss[0] + Zeros(0) == ss[0];
    }
  }

  /**
    The loop copies the wanted sectors of every input of `n` sectors exactly when nothing is
    skipped, or the input or the part to be copied ends before the sector counter wraps round.
  */
  lemma CopiedIsWantedExactly(size: nat, n: nat, skip: nat, count: nat, wrap: nat)
    requires size > 0 && skip < wrap
    ensures
      (forall input: seq<Byte> :: |Sectors(input, size)| == n ==>
        Copied(Sectors(input, size), skip, count, wrap) == Wanted(Sectors(input, size), skip, count))
      <==> skip == 0 || n <= wrap || skip + count <= wrap
  {
    hide Sectors; hide Copied; hide Wanted;
    if skip == 0 || n <= wrap || skip + count <= wrap {
      forall input: seq<Byte> | |Sectors(input, size)| == n
        ensures Copied(Sectors(input, size), skip, count, wrap) == Wanted(Sectors(input, size), skip, count)
      {
        CopiedWhen(Sectors(input, size), skip, count, wrap);
      }
    } else {
      var input := WrapLosesSector(size, n, skip, count, wrap);
    }
  }

  /** An input of which a sector is lost. */
  lemma WrapLosesSector(size: nat, n: nat, skip: nat, count: nat, wrap: nat) returns (input: seq<Byte>)
    requires size > 0 && 0 < skip < wrap < n && skip + count > wrap
    ensures |Sectors(input, size)| == n
    ensures Copied(Sectors(input, size), skip, count, wrap) != Wanted(Sectors(input, size), skip, count)
  {
    var one, zero := seq(size, _ => 1 as Byte), Zeros(size);
    assert one[0] != zero[0];
    input := Concat(Marked(one, zero, n, wrap));
    SectorsOfConcat(Marked(one, zero, n, wrap), size);
    MarkedIsLost(one, zero, n, skip, count, wrap);
  }

  /** `n` sectors, of which number `k` is marked. */
  function Marked(one: seq<Byte>, zero: seq<Byte>, n: nat, k: nat): (ss: seq<seq<Byte>>)
    ensures |ss| == n && forall i :: 0 <= i < n ==> ss[i] == if i == k then one else zero
  {
    seq(n, i => if i == k then one else zero)
  }

  lemma MarkedIsLost(one: seq<Byte>, zero: seq<Byte>, n: nat, skip: nat, count: nat, wrap: nat)
    requires one != zero && 0 < skip < wrap < n && skip + count > wrap
    ensures
      var ss := Marked(one, zero, n, wrap);
      Copied(ss, skip, count, wrap) != Wanted(ss, skip, count)
  {
    hide Marked; hide Written;
    var ss := Marked(one, zero, n, wrap);
    WrappedIsSkipped(ss, skip, n, wrap, one);
    assert Wanted(ss, skip, count)[wrap - skip] == ss[wrap] == one;
    assert one !in Copied(ss, skip, count, wrap);
  }

  lemma CopiedWhen(ss: seq<seq<Byte>>, skip: nat, count: nat, wrap: nat)
    requires wrap > 0 && (skip == 0 || |ss| <= wrap || skip + count <= wrap)
    ensures Copied(ss, skip, count, wrap) == Wanted(ss, skip, count)
  {
    hide Written; hide Takes;
    if skip == 0 || |ss| <= wrap {
      WrittenBeforeWrap(ss, skip, |ss|, wrap);
    } else {
      WrittenBeforeWrap(ss, skip, wrap, wrap);
      WrittenGrows(ss, skip, wrap, |ss|, wrap);
      assert ss[skip..wrap][..count] == ss[skip..skip + count];
    }
  }

  lemma ConcatEmpty()
    ensures Concat([]) == []
  {
  }

  /** What is left to be cut after one more sector. */
  lemma NextSector(input: seq<Byte>, size: nat)
    requires input != [] && size > 0
    ensures
      var n := Min(size, |input|);
      Sectors(input, size) == [input[..n] + Zeros(size - n)] + Sectors(input[n..], size)
  {
  }

  lemma NoSectors(input: seq<Byte>, size: nat)
    requires Min(size, |input|) == 0
    ensures Sectors(input, size) == []
  {
  }
}
