/**
  Backslash escaping in NSH command lines.

  A character is escaped when the backslash before it is itself not escaped.  The source
  tracks this in four different ways; each is proved here or in the modules that use this
  one against the single definition `Escaped`.
*/
module Escape {

  const BACKSLASH: char := '\\'
  const NUL: char := '\0'

  /** The character at `i` (or the end of the string) is escaped. */
  predicate Escaped(s: string, i: nat)
    requires i <= |s|
    decreases i
  {
    i > 0 && s[i - 1] == BACKSLASH && !Escaped(s, i - 1)
  }

  /** A backslash that escapes the character after it, and is removed with the quoting. */
  predicate Escapes(s: string, i: nat)
    requires i < |s|
  {
    s[i] == BACKSLASH && !Escaped(s, i)
  }

  /** Backslashes immediately before `i`. */
  function BackslashesBefore(s: string, i: nat): (n: nat)
    requires i <= |s|
    ensures n <= i && (n < i ==> s[i - 1 - n] != BACKSLASH)
    ensures forall k :: i - n <= k < i ==> s[k] == BACKSLASH
    decreases i
  {
    if i > 0 && s[i - 1] == BACKSLASH then 1 + BackslashesBefore(s, i - 1) else 0
  }

  /** Looking back and counting agrees with looking forward. */
  lemma {:induction false} ParityAgrees(s: string, i: nat)
    requires i <= |s|
    ensures Escaped(s, i) <==> BackslashesBefore(s, i) % 2 == 1
    decreases i
  {
    if i > 0 {
      ParityAgrees(s, i - 1);
    }
  }

  /** Escaping looks only at what comes before. */
  lemma {:induction false} EscapedPrefix(s: string, t: string, i: nat)
    requires i <= |s|
    ensures Escaped(s + t, i) == Escaped(s, i)
    decreases i
  {
    if i > 0 {
      EscapedPrefix(s, t, i - 1);
    }
  }

  /** After a string that does not end in the middle of an escape, escaping starts afresh. */
  lemma {:induction false} EscapedSuffix(s: string, t: string, i: nat)
    requires i <= |t| && !Escaped(s, |s|)
    ensures Escaped(s + t, |s| + i) == Escaped(t, i)
    decreases i
  {
    if i > 0 {
      EscapedSuffix(s, t, i - 1);
    } else {
      EscapedPrefix(s, t, |s|);
    }
  }

  /**
    What is left of a string whose escaping backslashes are removed; `quoted` says that its first
    character is escaped.
  */
  function Dequoted(s: string, quoted: bool): (r: string)
    ensures |r| <= |s|
  {
    if s == [] then []
    else if s[0] == BACKSLASH && !quoted then Dequoted(s[1..], true)
    else [s[0]] + Dequoted(s[1..], false)
  }

  /** The characters from `i` on that do not escape another one. */
  function Surviving(s: string, i: nat): (r: string)
    requires i <= |s|
    decreases |s| - i
  {
    if i == |s| then []
    else (if Escapes(s, i) then [] else [s[i]]) + Surviving(s, i + 1)
  }

  /** Removing backslashes in one sweep removes exactly the escaping ones. */
  lemma {:induction false} DequotedSurviving(s: string, i: nat)
    requires i <= |s|
    ensures Dequoted(s[i..], Escaped(s, i)) == Surviving(s, i)
    decreases |s| - i
  {
    if i < |s| {
      assert s[i..][1..] == s[i + 1..];
      DequotedSurviving(s, i + 1);
    }
  }

  lemma {:induction false} DequotedConcat(s: string, t: string)
    ensures Dequoted(s + t, false) == Dequoted(s, false) + Dequoted(t, Escaped(s, |s|))
  {
    DequotedConcatFrom(s, t, 0);
    assert s[0..] == s && (s + t)[0..] == s + t;
  }

  lemma {:induction false} DequotedConcatFrom(s: string, t: string, i: nat)
    requires i <= |s|
    ensures Dequoted((s + t)[i..], Escaped(s, i)) == Dequoted(s[i..], Escaped(s, i)) + Dequoted(t, Escaped(s, |s|))
    decreases |s| - i
  {
    if i == |s| {
      assert (s + t)[i..] == t && s[i..] == [];
    } else {
      assert (s + t)[i..][1..] == (s + t)[i + 1..] && s[i..][1..] == s[i + 1..];
      DequotedConcatFrom(s, t, i + 1);
    }
  }

  /** The number of backslashes at the start of a string. */
  function Leading(s: string): (n: nat) {
    if s != [] && s[0] == BACKSLASH then 1 + Leading(s[1..]) else 0
  }

  /** An open escape in front adds a character if an odd number of backslashes follows, and nothing otherwise. */
  lemma {:induction false} OpenEscapeBefore(t: string)
    ensures Leading(t) % 2 == 0 ==> Dequoted(t, true) == Dequoted(t, false)
    ensures Leading(t) % 2 == 1 ==> |Dequoted(t, true)| == |Dequoted(t, false)| + 1
  {
    if t != [] && t[0] == BACKSLASH {
      OpenEscapeBefore(t[1..]);
      if Leading(t) % 2 == 0 {
        var u := t[1..];
        assert u[0] == BACKSLASH;
        OpenEscapeBefore(u[1..]);
      }
    }
  }

  /** Dequoting changes nothing exactly when there is no backslash. */
  lemma {:induction false} VerbatimExactly(s: string)
    ensures Dequoted(s, false) == s <==> BACKSLASH !in s
  {
    if BACKSLASH in s {
      ShorterWithBackslash(s, false);
    } else {
      SameWithoutBackslash(s);
    }
  }

  lemma {:induction false} SameWithoutBackslash(s: string)
    requires BACKSLASH !in s
    ensures Dequoted(s, false) == s
  {
    if s != [] {
      SameWithoutBackslash(s[1..]);
    }
  }

  lemma {:induction false} ShorterWithBackslash(s: string, quoted: bool)
    requires BACKSLASH in if quoted && s != [] then s[1..] else s
    ensures |Dequoted(s, quoted)| < |s|
  {
    if s[0] == BACKSLASH && !quoted {
    } else {
      ShorterWithBackslash(s[1..], false);
    }
  }

  /** Position of the first unescaped character of `cs` at or after `i`, or the length. */
  function FirstUnescaped(s: string, cs: set<char>, i: nat): (n: nat)
    requires i <= |s|
    ensures i <= n <= |s|
    ensures n < |s| ==> s[n] in cs && !Escaped(s, n)
    ensures forall k :: i <= k < n ==> s[k] !in cs || Escaped(s, k)
    decreases |s| - i
  {
    if i == |s| || (s[i] in cs && !Escaped(s, i)) then i else FirstUnescaped(s, cs, i + 1)
  }
}
