/**
  The run-length encoder of `bitmap_converter.py`.
*/
module Bitmap {

  datatype Color = Color(r: int, g: int, b: int)

  function Square(x: int): (y: int)
    ensures y >= 0 && (y == 0 <==> x == 0)
  {
    x * x
  }

  function Distance(a: Color, b: Color): (d: int)
    ensures d >= 0 && (d == 0 <==> a == b)
  {
    Square(a.r - b.r) + Square(a.g - b.g) + Square(a.b - b.b)
  }

  /** Position of the first element equal to `c` (`list.index`). */
  function IndexOf(palette: seq<Color>, c: Color): (i: nat)
    requires c in palette
    ensures i < |palette| && palette[i] == c && forall j :: 0 <= j < i ==> palette[j] != c
  {
    if palette[0] == c then 0 else 1 + IndexOf(palette[1..], c)
  }

  /** The first element with the least distance (`min` with a key). */
  function Closest(palette: seq<Color>, c: Color): (m: Color)
    requires palette != []
    ensures m in palette
  {
    if |palette| == 1 then palette[0]
    else
      var m := Closest(palette[1..], c);
      if Distance(c, palette[0]) <= Distance(c, m) then palette[0] else m
  }

  function Quantize(c: Color, palette: seq<Color>): (i: nat)
    requires palette != []
    ensures i < |palette|
  {
    if c in palette then IndexOf(palette, c) else IndexOf(palette, Closest(palette, c))
  }

  lemma {:induction false} ClosestIsLeast(palette: seq<Color>, c: Color, j: nat)
    requires j < |palette|
    ensures Distance(c, Closest(palette, c)) <= Distance(c, palette[j])
  {
    hide Distance;
    if |palette| > 1 {
      ClosestIsLeast(palette[1..], c, if j == 0 then 0 else j - 1);
    }
  }

  /** No index before the one of the closest colour is as close. */
  lemma {:induction false} ClosestIsFirst(palette: seq<Color>, c: Color, j: nat)
    requires palette != [] && j < IndexOf(palette, Closest(palette, c))
    ensures Distance(c, Closest(palette, c)) < Distance(c, palette[j])
  {
    hide Distance;
    if |palette| > 1 && j > 0 {
      var m := Closest(palette[1..], c);
      assert Closest(palette, c) == m;
      ClosestIsFirst(palette[1..], c, j - 1);
    }
  }

  /** The sum of the squared differences of the three channels. */
  lemma DistanceIs(a: Color, b: Color)
    ensures Distance(a, b) == (a.r - b.r) * (a.r - b.r) + (a.g - b.g) * (a.g - b.g) + (a.b - b.b) * (a.b - b.b)
  {
  }

  /** Quantizing gives the first index of the closest colour of the palette. */
  lemma QuantizeIsFirstClosest(c: Color, palette: seq<Color>)
    requires palette != []
    ensures
      var i := Quantize(c, palette);
      && (forall j :: 0 <= j < |palette| ==> Distance(c, palette[i]) <= Distance(c, palette[j]))
      && (forall j :: 0 <= j < i ==> Distance(c, palette[i]) < Distance(c, palette[j]))
  {
    hide Distance; hide Closest;
    var i := Quantize(c, palette);
    forall j | 0 <= j < |palette| ensures Distance(c, palette[i]) <= Distance(c, palette[j]) {
      if c !in palette {
        ClosestIsLeast(palette, c, j);
      }
    }
    forall j | 0 <= j < i ensures Distance(c, palette[i]) < Distance(c, palette[j]) {
      if c !in palette {
        ClosestIsFirst(palette, c, j);
      }
    }
  }

  /** The same in numbers: no other colour has a smaller sum of squares, and none before it has as small a sum. */
  lemma QuantizedSquares(c: Color, palette: seq<Color>, j: nat)
    requires j < |palette|
    ensures
      var i, p := Quantize(c, palette), palette[j];
      var q := palette[i];
      var here := (c.r - q.r) * (c.r - q.r) + (c.g - q.g) * (c.g - q.g) + (c.b - q.b) * (c.b - q.b);
      var there := (c.r - p.r) * (c.r - p.r) + (c.g - p.g) * (c.g - p.g) + (c.b - p.b) * (c.b - p.b);
      here <= there && (j < i ==> here < there)
  {
    hide Quantize; hide Distance;
    QuantizeIsFirstClosest(c, palette);
    DistanceIs(c, palette[Quantize(c, palette)]);
    DistanceIs(c, palette[j]);
  }

  /** A run of `count` pixels of one palette index. */
  datatype Entry = Entry(count: nat, color: nat)

  const MAX_COUNT: nat := 255

  /** Every count fits in a byte. */
  predicate CountsFit(es: seq<Entry>) {
    forall i :: 0 <= i < |es| ==> es[i].count <= 255
  }

  function Repeat(n: nat, c: nat): (s: seq<nat>) {
    seq(n, _ => c)
  }

  function Decode(es: seq<Entry>): (s: seq<nat>) {
    if es == [] then [] else Repeat(es[0].count, es[0].color) + Decode(es[1..])
  }

  lemma {:induction false} DecodeAppend(es: seq<Entry>, e: Entry)
    ensures Decode(es + [e]) == Decode(es) + Repeat(e.count, e.color)
  {
    if es == [] {
      assert es + [e] == [e] && [e][1..] == [];
    } else {
      DecodeAppend(es[1..], e);
      assert (es + [e])[1..] == es[1..] + [e];
    }
  }

  /** Length of the run that the encoder takes first: equal pixels, at most 255. */
  function RunLength(s: seq<nat>): (n: nat)
    requires s != []
    ensures 1 <= n <= |s| && n <= MAX_COUNT
    ensures forall i :: 0 <= i < n ==> s[i] == s[0]
    ensures n == |s| || n == MAX_COUNT || s[n] != s[0]
  {
    RunFrom(s, 1)
  }

  function RunFrom(s: seq<nat>, k: nat): (n: nat)
    requires 1 <= k <= |s| && k <= MAX_COUNT && forall i :: 0 <= i < k ==> s[i] == s[0]
    ensures k <= n <= |s| && n <= MAX_COUNT
    ensures forall i :: 0 <= i < n ==> s[i] == s[0]
    ensures n == |s| || n == MAX_COUNT || s[n] != s[0]
    decreases |s| - k
  {
    if k == |s| || k == MAX_COUNT || s[k] != s[0] then k else RunFrom(s, k + 1)
  }

  /** Number of runs, always taking the longest possible one. */
  function Runs(s: seq<nat>): (n: nat)
    decreases |s|
  {
    if s == [] then 0 else 1 + Runs(s[RunLength(s)..])
  }

  lemma RunsFirst(s: seq<nat>)
    requires s != []
    ensures Runs(s) == 1 + Runs(s[RunLength(s)..])
  {
  }

  /** Dropping pixels from the front never needs more runs. */
  lemma {:induction false} RunsShrink(s: seq<nat>, k: nat)
    requires k <= |s|
    ensures Runs(s[k..]) <= Runs(s)
    decreases |s|, k
  {
    hide RunLength; hide Runs;
    if s == [] || k == 0 {
      assert s[k..] == s;
    } else {
      var n := RunLength(s);
      RunsFirst(s);
      if k >= n {
        assert s[k..] == s[n..][k - n..];
        RunsShrink(s[n..], k - n);
      } else {
        // what is left begins with the same pixel, so its first run reaches at least as far
        var t := s[k..];
        var m := RunLength(t);
        RunsFirst(t);
        assert forall i :: 0 <= i < |t| ==> t[i] == s[k + i];
        assert k + m >= n;
        assert t[m..] == s[n..][k + m - n..];
        RunsShrink(s[n..], k + m - n);
      }
    }
  }

  /** No list of entries with counts up to 255 that decodes to a row is shorter than the number of runs. */
  lemma {:induction false} NoShorter(es: seq<Entry>)
    requires CountsFit(es)
    ensures Runs(Decode(es)) <= |es|
  {
    hide RunLength; hide Runs;
    if es == [] {
      RunsNothing();
    } else {
      var s, n := Decode(es), es[0].count;
      NoShorter(es[1..]);
      assert s[n..] == Decode(es[1..]);
      if n > 0 {
        var m := RunLength(s);
        RunsFirst(s);
        assert forall i :: 0 <= i < n ==> s[i] == es[0].color;
        assert m >= n;
        assert s[m..] == s[n..][m - n..];
        RunsShrink(s[n..], m - n);
      }
    }
  }

  lemma RunLengthIs(s: seq<nat>, n: nat)
    requires s != [] && 1 <= n <= |s| && n <= MAX_COUNT
    requires forall i :: 0 <= i < n ==> s[i] == s[0]
    requires n == |s| || n == MAX_COUNT || s[n] != s[0]
    ensures RunLength(s) == n
  {
    hide RunLength;
    var m := RunLength(s);
  }

  /** The palette indices of a row of pixels. */
  function Quantized(pixels: seq<Color>, palette: seq<Color>): (s: seq<nat>)
    requires palette != []
    ensures |s| == |pixels| && forall i :: 0 <= i < |s| ==> s[i] == Quantize(pixels[i], palette)
  {
    seq(|pixels|, i requires 0 <= i < |pixels| => Quantize(pixels[i], palette))
  }

  /** The entries written so far decode to the row up to `p`, and `p..x` is one run. */
  ghost predicate Encoding(row: seq<nat>, entries: seq<Entry>, p: nat, x: nat, color: nat) {
    && p < x <= |row| && x - p <= MAX_COUNT
    && (forall i :: p <= i < x ==> row[i] == color)
    && Decode(entries) == row[..p] && Runs(row) == |entries| + Runs(row[p..])
    && (forall i :: 0 <= i < |entries| ==> 1 <= entries[i].count <= MAX_COUNT)
  }

  /** Closing a run that cannot be longer. */
  lemma CloseRun(row: seq<nat>, entries: seq<Entry>, p: nat, x: nat, color: nat)
    requires Encoding(row, entries, p, x, color)
    requires x == |row| || x - p == MAX_COUNT || row[x] != color
    ensures
      var es := entries + [Entry(x - p, color)];
      && Decode(es) == row[..x] && Runs(row) == |es| + Runs(row[x..])
      && forall i :: 0 <= i < |es| ==> 1 <= es[i].count <= MAX_COUNT
  {
    hide Decode; hide RunLength; hide Runs;
    RunsFirst(row[p..]);
    DecodeAppend(entries, Entry(x - p, color));
    assert row[..x] == row[..p] + Repeat(x - p, color);
    RunLengthIs(row[p..], x - p);
    assert row[p..][x - p..] == row[x..];
  }

  /**
    `encode_row`: the entries decode to the quantized row, every count is in 1..255, and no
    list of entries with counts up to 255 that decodes to the same row is shorter.
  */
  method EncodeRow(pixels: seq<Color>, palette: seq<Color>) returns (entries: seq<Entry>)
    requires palette != []
    ensures Decode(entries) == Quantized(pixels, palette)
    ensures forall i :: 0 <= i < |entries| ==> 1 <= entries[i].count <= 255
    ensures forall es: seq<Entry> :: Decode(es) == Decode(entries) && CountsFit(es) ==> |entries| <= |es|
  {
    hide Decode; hide Quantize; hide Runs;
    ghost var row := Quantized(pixels, palette);
    entries := [];
    var started, color, repeats := false, 0, 0;
    DecodeNothing();
    ghost var p := 0;
    for x := 0 to |pixels|
      invariant p + repeats == x && (started <==> x > 0)
      invariant !started ==> entries == [] && repeats == 0 && p == 0
      invariant started ==> Encoding(row, entries, p, x, color)
    {
      var c := Quantize(pixels[x], palette);
      if started && c == color && repeats < MAX_COUNT {
        repeats := repeats + 1;
      } else {
        if started {
          CloseRun(row, entries, p, x, color);
          entries := entries + [Entry(repeats, color)];
        } else {
          assert row[..0] == [] && row[0..] == row;
        }
        p := x;
        started, repeats, color := true, 1, c;
      }
    }
    if started {
      CloseRun(row, entries, p, |pixels|, color);
      entries := entries + [Entry(repeats, color)];
      assert row[..|row|] == row && row[|row|..] == [];
    } else {
      assert row == [];
    }
    RunsNothing();
    forall es: seq<Entry> | Decode(es) == Decode(entries) && CountsFit(es)
      ensures |entries| <= |es|
    {
      NoShorter(es);
    }
  }

  lemma DecodeNothing()
    ensures Decode([]) == []
  {
  }

  lemma RunsNothing()
    ensures Runs([]) == 0
  {
  }
}
