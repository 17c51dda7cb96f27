/**
  The command list of `help`: names in columns, filled column by column.
*/
module HelpList {

  const HELP_LINELEN: nat := 80

  /** `n` divided by `d`, rounded up, without division: the least number of rows that is enough. */
  predicate IsCeil(rows: nat, n: nat, perLine: nat) {
    At(0, perLine, rows) >= n && (rows > 0 ==> At(0, perLine, rows - 1) < n)
  }

  /** The index at row `i`, column `j`; also where column `j` of a line starts. */
  function At(i: nat, j: nat, rows: nat): nat {
    i + j * rows
  }

  lemma AtNext(i: nat, j: nat, rows: nat)
    ensures At(i, 0, rows) == i && At(i, j + 1, rows) == At(i, j, rows) + rows
  {
    assert (j + 1) * rows == j * rows + rows;
  }

  lemma AtOrder(i: nat, j: nat, j': nat, rows: nat)
    requires j <= j'
    ensures At(i, j, rows) <= At(i, j', rows)
  {
    assert (j' - j) * rows >= 0;
    assert j' * rows == j * rows + (j' - j) * rows;
  }

  /** One row: every `rows`-th index from `i` on, up to the end of the list. */
  ghost predicate IsRow(row: seq<nat>, n: nat, rows: nat, i: nat) {
    && (forall j :: 0 <= j < |row| ==> row[j] == At(i, j, rows) && row[j] < n)
    && At(i, |row|, rows) >= n
  }

  ghost predicate IsListing(listing: seq<seq<nat>>, n: nat) {
    forall i :: 0 <= i < |listing| ==> IsRow(listing[i], n, |listing|, i)
  }

  function Spaces(n: nat): (s: string)
    ensures |s| == n && forall i :: 0 <= i < n ==> s[i] == ' '
  {
    seq(n, _ => ' ')
  }

  predicate WideEnough(names: seq<string>, width: nat) {
    forall k :: 0 <= k < |names| ==> |names[k]| + 2 <= width
  }

  predicate Below(row: seq<nat>, n: nat) {
    forall j :: 0 <= j < |row| ==> row[j] < n
  }

  /** The text of a row. */
  function Line(names: seq<string>, width: nat, row: seq<nat>): (s: string)
    requires WideEnough(names, width) && Below(row, |names|)
  {
    if row == [] then "  "
    else
      var name := names[row[|row| - 1]];
      Line(names, width, row[..|row| - 1]) + name + Spaces(width - |name|)
  }

  function Text(names: seq<string>, width: nat, listing: seq<seq<nat>>): (s: string)
    requires WideEnough(names, width) && forall i :: 0 <= i < |listing| ==> Below(listing[i], |names|)
  {
    if listing == [] then ""
    else Text(names, width, listing[..|listing| - 1]) + Line(names, width, listing[|listing| - 1]) + "\n"
  }

  /** Where row `i` begins in the text: behind the rows before it and their line ends. */
  function RowStart(width: nat, listing: seq<seq<nat>>, i: nat): (n: nat)
    requires i <= |listing|
  {
    if i == 0 then 0 else RowStart(width, listing, i - 1) + At(2, |listing[i - 1]|, width) + 1
  }

  /** Each row stands in the text at its place, in order, and is followed by a line end; nothing else is in the text. */
  lemma {:induction false} RowInText(names: seq<string>, width: nat, listing: seq<seq<nat>>, i: nat)
    requires WideEnough(names, width) && forall k :: 0 <= k < |listing| ==> Below(listing[k], |names|)
    requires i < |listing|
    ensures
      var text, start, line := Text(names, width, listing), RowStart(width, listing, i), Line(names, width, listing[i]);
      && |text| == RowStart(width, listing, |listing|) && start + |line| < |text|
      && text[start..start + |line|] == line && text[start + |line|] == '\n'
    decreases |listing|
  {
    hide At; hide Line; hide WideEnough; hide Below;
    var m := |listing| - 1;
    var front, last := listing[..m], Line(names, width, listing[m]);
    var t, s := Text(names, width, front), Text(names, width, listing);
    LineLength(names, width, listing[m]);
    LineLength(names, width, listing[i]);
    SameStarts(width, front, listing, m);
    SameStarts(width, front, listing, i);
    assert s == t + last + "\n";
    if m == 0 {
      assert front == [];
    } else {
      RowInText(names, width, front, if i < m then i else 0);
      var start, line := RowStart(width, listing, i), Line(names, width, listing[i]);
      if i < m {
        Within(t, last + "\n", s, start, start + |line|);
      }
    }
  }

  lemma {:induction false} SameStarts(width: nat, front: seq<seq<nat>>, listing: seq<seq<nat>>, i: nat)
    requires front <= listing && i <= |front|
    ensures RowStart(width, front, i) == RowStart(width, listing, i)
    decreases i
  {
    if i > 0 {
      SameStarts(width, front, listing, i - 1);
    }
  }

  /** A list entry determines its place. */
  lemma PlaceUnique(i: nat, j: nat, i': nat, j': nat, rows: nat)
    requires i < rows && i' < rows && At(i, j, rows) == At(i', j', rows)
    ensures i == i' && j == j'
  {
    if j < j' {
      AtNext(i, j, rows);
      AtOrder(0, j + 1, j', rows);
    } else if j' < j {
      AtNext(i, j', rows);
      AtOrder(0, j' + 1, j, rows);
    }
  }

  lemma OwnPlace(k: nat, rows: nat)
    requires rows > 0
    ensures k % rows < rows && k / rows >= 0 && At(k % rows, k / rows, rows) == k
  {
  }

  /** Every index is printed exactly once: at row `k % rows`, column `k / rows`, and nowhere else. */
  lemma EachExactlyOnce(listing: seq<seq<nat>>, n: nat, k: nat)
    requires IsListing(listing, n) && k < n && listing != []
    ensures
      var i, j := k % |listing|, k / |listing|;
      && j < |listing[i]| && listing[i][j] == k
      && forall i', j' :: 0 <= i' < |listing| && 0 <= j' < |listing[i']| && listing[i'][j'] == k ==> i' == i && j' == j
  {
    hide At;
    var rows := |listing|;
    OwnPlace(k, rows);
    var i, j := k % rows, k / rows;
    assert IsRow(listing[i], n, rows, i);
    if |listing[i]| <= j {
      AtOrder(i, |listing[i]|, j, rows);
    }
    forall i', j' | 0 <= i' < rows && 0 <= j' < |listing[i']| && listing[i'][j'] == k
      ensures i' == i && j' == j
    {
      assert IsRow(listing[i'], n, rows, i');
      PlaceUnique(i, j, i', j', rows);
    }
  }

  /** Each name starts at its column, and a line is as wide as its columns. */
  lemma {:induction false} NameInColumn(names: seq<string>, width: nat, row: seq<nat>, j: nat)
    requires WideEnough(names, width) && Below(row, |names|)
    requires j < |row|
    ensures
      var s, name, start := Line(names, width, row), names[row[j]], At(2, j, width);
      start + |name| <= |s| && s[start..start + |name|] == name
    decreases |row|
  {
    hide At;
    var m := |row| - 1;
    var t, s, last := Line(names, width, row[..m]), Line(names, width, row), names[row[m]];
    LineLength(names, width, row[..m]);
    assert s == t + last + Spaces(width - |last|);
    if j < m {
      NameInColumn(names, width, row[..m], j);
      var start, name := At(2, j, width), names[row[j]];
      Within(t, last + Spaces(width - |last|), s, start, start + |name|);
    }
  }

  lemma Within(t: string, u: string, s: string, lo: nat, hi: nat)
    requires s == t + u && lo <= hi <= |t|
    ensures s[lo..hi] == t[lo..hi]
  {
  }

  lemma {:induction false} LineLength(names: seq<string>, width: nat, row: seq<nat>)
    requires WideEnough(names, width) && Below(row, |names|)
    ensures |Line(names, width, row)| == At(2, |row|, width)
    decreases |row|
  {
    hide At;
    AtNext(2, if row == [] then 0 else |row| - 1, width);
    if row != [] {
      LineLength(names, width, row[..|row| - 1]);
    }
  }

  /** The widest name and two blanks. */
  method ColumnWidth(names: seq<string>) returns (width: nat)
    ensures width >= 2 && WideEnough(names, width)
    ensures width == 2 || exists k :: 0 <= k < |names| && |names[k]| + 2 == width
  {
    width := 0;
    for k := 0 to |names|
      invariant forall m :: 0 <= m < k ==> |names[m]| <= width
      invariant width == 0 || exists m :: 0 <= m < k && |names[m]| == width
    {
      if |names[k]| > width {
        width := |names[k]|;
      }
    }
    width := width + 2;
  }

  /** The entries per line: as many columns as fit, and at least one. */
  method PerLine(width: nat) returns (perLine: nat)
    requires width >= 2
    ensures perLine >= 1 && (perLine > 1 ==> perLine * width <= HELP_LINELEN) && (perLine + 1) * width > HELP_LINELEN
  {
    if width > HELP_LINELEN {
      perLine := 1;
    } else {
      perLine := HELP_LINELEN / width;
    }
  }

  lemma CeilDivision(n: nat, perLine: nat)
    requires perLine >= 1
    ensures IsCeil((n + (perLine - 1)) / perLine, n, perLine)
  {
    var rows := (n + (perLine - 1)) / perLine;
    assert n + (perLine - 1) == rows * perLine + (n + (perLine - 1)) % perLine;
    assert perLine * (rows - 1) == rows * perLine - perLine;
  }

  /** No other number of rows is. */
  lemma CeilExactly(rows: nat, n: nat, perLine: nat)
    requires perLine >= 1
    ensures IsCeil(rows, n, perLine) <==> rows == (n + (perLine - 1)) / perLine
  {
    var r := (n + (perLine - 1)) / perLine;
    CeilDivision(n, perLine);
    if rows < r {
      Product(perLine, rows, r - 1);
    } else if r < rows {
      Product(perLine, r, rows - 1);
    }
  }

  lemma Product(k: nat, a: nat, b: nat)
    requires a <= b
    ensures At(0, k, a) <= At(0, k, b)
  {
    assert k * b == k * a + k * (b - a);
  }

  method Pad(name: string, width: nat) returns (cell: string)
    requires |name| <= width
    ensures cell == name + Spaces(width - |name|)
  {
    cell := name;
    var w := |name|;
    while w < width
      invariant |name| <= w <= width
      invariant cell == name + Spaces(w - |name|)
    {
      cell := cell + " ";
      w := w + 1;
    }
  }

  lemma NoColumns(names: seq<string>, width: nat)
    requires WideEnough(names, width)
    ensures Line(names, width, []) == "  "
  {
  }

  lemma LineGrows(names: seq<string>, width: nat, row: seq<nat>, k: nat)
    requires WideEnough(names, width) && Below(row, |names|) && k < |names|
    ensures Below(row + [k], |names|)
    ensures Line(names, width, row + [k]) == Line(names, width, row) + (names[k] + Spaces(width - |names[k]|))
  {
    assert (row + [k])[..|row|] == row;
    var front, cell := Line(names, width, row), names[k] + Spaces(width - |names[k]|);
    assert front + names[k] + Spaces(width - |names[k]|) == front + cell;
  }

  /** The inner loop of the listing. */
  method PrintRow(names: seq<string>, width: nat, rows: nat, perLine: nat, i: nat) returns (row: seq<nat>, line: string)
    requires WideEnough(names, width)
    requires At(0, perLine, rows) >= |names| && i < rows
    ensures IsRow(row, |names|, rows, i) && |row| <= perLine && Below(row, |names|)
    ensures line == Line(names, width, row)
  {
    hide At; hide Line; hide Spaces;
    row, line := [], "  ";
    NoColumns(names, width);
    var j, k := 0, i;
    AtNext(i, 0, rows);
    while j < perLine && k < |names|
      invariant 0 <= j <= perLine && |row| == j && k == At(i, j, rows)
      invariant forall m :: 0 <= m < j ==> row[m] == At(i, m, rows) && row[m] < |names|
      invariant line == Line(names, width, row)
    {
      var cell := Pad(names[k], width);
      AtNext(i, j, rows);
      LineGrows(names, width, row, k);
      row, line := row + [k], line + cell;
      j, k := j + 1, k + rows;
    }
    RowsEnough(i, perLine, rows);
  }

  lemma RowsEnough(i: nat, perLine: nat, rows: nat)
    ensures At(i, perLine, rows) >= At(0, perLine, rows)
  {
  }

  /**
    The listing: each row at most `perLine` entries, the least number of rows that is enough,
    and the text of just these rows. With `EachExactlyOnce`, every command is printed once.
  */
  method CommandList(names: seq<string>) returns (listing: seq<seq<nat>>, text: string, width: nat, perLine: nat)
    ensures IsListing(listing, |names|) && IsCeil(|listing|, |names|, perLine)
    ensures forall i :: 0 <= i < |listing| ==> |listing[i]| <= perLine && Below(listing[i], |names|)
    ensures WideEnough(names, width) && (width == 2 || exists k :: 0 <= k < |names| && |names[k]| + 2 == width)
    ensures perLine >= 1 && (perLine > 1 ==> perLine * width <= 80) && (perLine + 1) * width > 80
    ensures text == Text(names, width, listing)
  {
    hide At; hide IsRow; hide Below; hide WideEnough; hide Line;
    width := ColumnWidth(names);
    perLine := PerLine(width);
    CeilDivision(|names|, perLine);
    var rows := (|names| + (perLine - 1)) / perLine;
    listing, text := [], "";
    for i := 0 to rows
      invariant |listing| == i && forall m :: 0 <= m < i ==> IsRow(listing[m], |names|, rows, m)
      invariant forall m :: 0 <= m < i ==> |listing[m]| <= perLine && Below(listing[m], |names|)
      invariant text == Text(names, width, listing)
    {
      var row, line := PrintRow(names, width, rows, perLine, i);
      assert (listing + [row])[..i] == listing;
      listing, text := listing + [row], text + line + "\n";
    }
  }
}
