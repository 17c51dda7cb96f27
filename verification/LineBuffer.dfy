/**
  NUL-terminated strings in a line buffer: the searches and in-place edits of `nsh_parse.c`.
*/
module LineBuffer {
  import opened Escape

  /** A string starts at `from` and its terminator is at `end`. */
  predicate IsStr(a: seq<char>, from: nat, end: nat) {
    && from <= end < |a| && a[end] == NUL
    && forall k :: from <= k < end ==> a[k] != NUL
  }

  /** `nsh_strchr`: the first unescaped `ch`. */
  method Strchr(a: array<char>, from: nat, ghost end: nat, ch: char) returns (found: bool, at: nat)
    requires IsStr(a[..], from, end) && ch != NUL && ch != BACKSLASH
    ensures var n := FirstUnescaped(a[from..end], {ch}, 0);
            if found then at == from + n && at < end else n == end - from
  {
    ghost var s := a[from..end];
    at := from;
    var quoted := false;
    while true
      invariant from <= at <= end && quoted == Escaped(s, at - from)
      invariant forall k :: 0 <= k < at - from ==> s[k] != ch || Escaped(s, k)
      decreases end - at
    {
      if a[at] == BACKSLASH && !quoted {
        quoted := true;
      } else if a[at] == ch && !quoted {
        return true, at;
      } else if a[at] == NUL {
        return false, at;
      } else {
        quoted := false;
      }
      at := at + 1;
    }
  }

  /** The inner loop of `nsh_dequote`: everything behind `at`, with the terminator, moves down by one. */
  method ShiftDown(a: array<char>, at: nat, ghost end: nat)
    requires IsStr(a[..], at, end) && at < end
    modifies a
    ensures forall k :: 0 <= k < at || end <= k < a.Length ==> a[k] == old(a[k])
    ensures forall k :: at <= k < end ==> a[k] == old(a[k + 1])
  {
    var dest, src := at, at + 1;
    while true
      invariant at <= dest < end && src == dest + 1
      invariant forall k :: 0 <= k < at ==> a[k] == old(a[k])
      invariant forall k :: at <= k < dest ==> a[k] == old(a[k + 1])
      invariant forall k :: dest <= k < a.Length ==> a[k] == old(a[k])
      decreases end - dest
    {
      var ch := a[src];
      a[dest] := ch;
      if ch == NUL {
        return;
      }
      dest, src := dest + 1, src + 1;
    }
  }

  lemma Shifted(b: seq<char>, a: seq<char>, from: nat, at: nat, end: nat)
    requires |a| == |b| && from <= at < end && IsStr(b, from, end)
    requires forall k :: 0 <= k < at || end <= k < |a| ==> a[k] == b[k]
    requires forall k :: at <= k < end ==> a[k] == b[k + 1]
    ensures a[from..at] == b[from..at] && a[at..end - 1] == b[at..end][1..] && IsStr(a, from, end - 1)
  {
  }

  lemma DequotedHead(s: string, quoted: bool)
    requires s != []
    ensures Dequoted(s, quoted) ==
            if s[0] == BACKSLASH && !quoted then Dequoted(s[1..], true) else [s[0]] + Dequoted(s[1..], false)
  {
  }

  lemma DequotedEmpty(quoted: bool)
    ensures Dequoted([], quoted) == []
  {
  }

  /** A backslash is squeezed out. */
  lemma SqueezeStep(b: seq<char>, a: seq<char>, from: nat, at: nat, end: nat)
    requires |a| == |b| && from <= at < end && IsStr(b, from, end) && b[at] == BACKSLASH
    requires forall k :: 0 <= k < at || end <= k < |a| ==> a[k] == b[k]
    requires forall k :: at <= k < end ==> a[k] == b[k + 1]
    ensures IsStr(a, from, end - 1)
    ensures a[from..at] + Dequoted(a[at..end - 1], true) == b[from..at] + Dequoted(b[at..end], false)
  {
    hide Dequoted;
    Shifted(b, a, from, at, end);
    DequotedHead(b[at..end], false);
  }

  /** Any other character is kept. */
  lemma KeepStep(a: seq<char>, from: nat, at: nat, end: nat, quoted: bool)
    requires from <= at < end <= |a| && (a[at] != BACKSLASH || quoted)
    ensures a[from..at] + Dequoted(a[at..end], quoted) == a[from..at + 1] + Dequoted(a[at + 1..end], false)
  {
    hide Dequoted;
    DequotedHead(a[at..end], quoted);
    assert a[at..end][1..] == a[at + 1..end];
    assert a[from..at + 1] == a[from..at] + [a[at]];
  }

  /** `nsh_dequote`: escaping backslashes are squeezed out; `end'` is where the shorter string ends. */
  method Dequote(a: array<char>, from: nat, ghost end: nat) returns (end': nat)
    requires IsStr(a[..], from, end)
    modifies a
    ensures IsStr(a[..], from, end') && end' <= end
    ensures a[from..end'] == Dequoted(old(a[from..end]), false)
    ensures forall k :: 0 <= k < from || end <= k < a.Length ==> a[k] == old(a[k])
  {
    hide Dequoted;
    var ptr := from;
    var quoted := false;
    ghost var hi := end;
    assert a[from..from] + Dequoted(a[from..end], false) == Dequoted(a[from..end], false);
    while a[ptr] != NUL
      invariant from <= ptr && ptr <= hi <= end && IsStr(a[..], from, hi)
      invariant a[from..ptr] + Dequoted(a[ptr..hi], quoted) == Dequoted(old(a[from..end]), false)
      invariant forall k :: 0 <= k < from || end <= k < a.Length ==> a[k] == old(a[k])
      decreases hi - ptr, !quoted
    {
      if a[ptr] == BACKSLASH && !quoted {
        ghost var b := a[..];
        ShiftDown(a, ptr, hi);
        hi := hi - 1;
        SqueezeStep(b, a[..], from, ptr, hi + 1);
        quoted := true;
      } else {
        KeepStep(a[..], from, ptr, hi, quoted);
        quoted := false;
        ptr := ptr + 1;
      }
    }
    DequotedEmpty(quoted);
    assert a[ptr..hi] == [] && a[from..ptr] + [] == a[from..ptr];
    a[ptr] := NUL;
    end' := ptr;
  }
}
