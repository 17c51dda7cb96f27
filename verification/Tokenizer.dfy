/**
  `nsh_argument`: one argument at a time from a command line, terminated and dequoted in place.
*/
module Tokenizer {
  import opened Escape
  import opened LineBuffer
  import opened Expander

  const SEPARATORS: set<char> := {' ', '\t', '\n'}
  const QUOTES: set<char> := {'"'}

  function SkipSeparators(s: string): (n: nat)
    ensures n <= |s| && (n < |s| ==> s[n] !in SEPARATORS)
    ensures forall k :: 0 <= k < n ==> s[k] in SEPARATORS
  {
    if s == [] || s[0] !in SEPARATORS then 0 else 1 + SkipSeparators(s[1..])
  }

  /**
    Length of a token: up to the first character of `term` that is neither escaped nor inside
    back-quotes.  `quoted` says that the first character is escaped.
  */
  function Scan(s: string, term: set<char>, quoted: bool, back: bool): (n: nat)
    ensures n <= |s|
  {
    if s == [] then 0
    else if quoted then 1 + Scan(s[1..], term, false, back)
    else if s[0] == BACKSLASH then 1 + Scan(s[1..], term, true, back)
    else if s[0] == '`' then 1 + Scan(s[1..], term, false, !back)
    else if !back && s[0] in term then 0
    else 1 + Scan(s[1..], term, false, back)
  }

  /** An odd number of unescaped back-quotes comes before `i`. */
  predicate InBackquotes(s: string, i: nat)
    requires i <= |s|
    decreases i
  {
    i > 0 && ((s[i - 1] == '`' && !Escaped(s, i - 1)) != InBackquotes(s, i - 1))
  }

  /** A character that may end a token. */
  predicate Ends(s: string, term: set<char>, k: nat)
    requires k < |s|
  {
    s[k] in term && !Escaped(s, k) && !InBackquotes(s, k)
  }

  lemma {:induction false} ScanFrom(s: string, term: set<char>, i: nat)
    requires i <= |s| && BACKSLASH !in term && '`' !in term
    ensures
      var n := i + Scan(s[i..], term, Escaped(s, i), InBackquotes(s, i));
      (n < |s| ==> Ends(s, term, n)) && forall k :: i <= k < n ==> !Ends(s, term, k)
    decreases |s| - i
  {
    if i < |s| {
      assert s[i..][1..] == s[i + 1..] && s[i] == s[i..][0];
      if !Ends(s, term, i) {
        ScanFrom(s, term, i + 1);
      }
    }
  }

  /** The scanning loop stops at the first character that may end the token, in terms of the whole string. */
  lemma ScanFindsFirstEnd(s: string, term: set<char>)
    requires BACKSLASH !in term && '`' !in term
    ensures
      var n := Scan(s, term, false, false);
      (n < |s| ==> Ends(s, term, n)) && forall k :: 0 <= k < n ==> !Ends(s, term, k)
  {
    ScanFrom(s, term, 0);
    assert s[0..] == s;
  }

  /** An argument, where the next one is looked for and in which world, or the end of the line. */
  datatype Lexed = End | Token(arg: string, resume: nat, world: World)

  function Lex(w: World, s: string): (r: Lexed)
    ensures r.Token? ==> 0 < r.resume <= |s|
  {
    var b := SkipSeparators(s);
    if b == |s| then End
    else if s[b] == '>' then
      if b + 1 < |s| && s[b + 1] == '>' then Token(">>", b + 2, w) else Token(">", b + 1, w)
    else if s[b] == '#' then End
    else if s[b] == '"' then LexWord(w, s, b + 1, QUOTES)
    else LexWord(w, s, b, SEPARATORS)
  }

  /** The word that starts at `b`; the character that ends it is consumed. */
  function LexWord(w: World, s: string, b: nat, term: set<char>): (r: Lexed)
    requires b <= |s|
    requires b == 0 ==> s != [] && s[0] !in term
    ensures r.Token? && 0 < r.resume <= |s|
  {
    var n := Scan(s[b..], term, false, false);
    var word := s[b..b + n];
    Token(Expand(w, word), if b + n < |s| then b + n + 1 else b + n, Afterwards(w, word))
  }

  /** The arguments of a line, at most `limit` of them, and the world that their commands leave. */
  function Tokens(w: World, s: string, limit: nat): (r: (seq<string>, World))
    ensures |r.0| <= limit
    decreases limit
  {
    if limit == 0 then ([], w)
    else
      match Lex(w, s)
      case End => ([], w)
      case Token(arg, resume, next) =>
        var (args, last) := Tokens(next, s[resume..], limit - 1);
        ([arg] + args, last)
  }

  /** The scanning loop with its `prev`/`quoted` pair. */
  method FindEnd(a: array<char>, pbegin: nat, ghost end: nat, term: set<char>) returns (pend: nat)
    requires IsStr(a[..], pbegin, end)
    ensures pend == pbegin + Scan(a[pbegin..end], term, false, false)
  {
    ghost var s := a[pbegin..end];
    pend := pbegin;
    var quoted, backquote := false, false;
    assert s[0..] == s;
    while a[pend] != NUL
      invariant pbegin <= pend <= end
      invariant quoted == (pend > pbegin && Escaped(s, pend - pbegin - 1))
      invariant Scan(s, term, false, false)
             == pend - pbegin + Scan(s[pend - pbegin..], term, Escaped(s, pend - pbegin), backquote)
      decreases end - pend
    {
      ghost var i := pend - pbegin;
      assert s[i..][1..] == s[i + 1..] && s[i] == a[pend];
      if pend > pbegin && a[pend - 1] == BACKSLASH && !quoted {
        quoted := true;
      } else {
        quoted := false;
        if a[pend] == BACKSLASH {
        } else if a[pend] == '`' {
          backquote := !backquote;
        } else if !backquote && a[pend] in term {
          return;
        }
      }
      pend := pend + 1;
    }
    assert s[pend - pbegin..] == [];
  }

  method SkipBlanks(a: array<char>, from: nat, ghost end: nat) returns (at: nat)
    requires IsStr(a[..], from, end)
    ensures at == from + SkipSeparators(a[from..end])
  {
    at := from;
    assert a[from..end][0..] == a[from..end];
    while a[at] != NUL && a[at] in SEPARATORS
      invariant from <= at <= end
      invariant SkipSeparators(a[from..end]) == at - from + SkipSeparators(a[at..end])
      decreases end - at
    {
      assert a[at..end][1..] == a[at + 1..end];
      at := at + 1;
    }
  }

  /** `nsh_argument`. */
  method Argument(w: World, a: array<char>, save: nat, ghost end: nat)
    returns (found: bool, arg: string, save': nat, w': World)
    requires IsStr(a[..], save, end) && Clean(w)
    modifies a
    ensures match Lex(w, old(a[save..end]))
            case End => !found && a[..] == old(a[..]) && w' == w
            case Token(x, resume, next) => found && arg == x && save' == save + resume && w' == next
    ensures save <= save' <= end && Clean(w')
    ensures forall k :: 0 <= k < save || save' <= k < a.Length ==> a[k] == old(a[k])
  {
    hide SkipSeparators; hide LexWord; hide Clean; hide Scan; hide Expand; hide Afterwards;
    ghost var s := a[save..end];
    found, arg, save', w' := false, "", save, w;
    var pbegin := SkipBlanks(a, save, end);
    ghost var b := pbegin - save;
    assert pbegin < end ==> s[b] == a[pbegin];
    assert pbegin + 1 < end ==> s[b + 1] == a[pbegin + 1];
    if a[pbegin] == NUL {
    } else if a[pbegin] == '>' {
      found := true;
      if a[pbegin + 1] == '>' {
        save', arg := pbegin + 2, ">>";
      } else {
        save', arg := pbegin + 1, ">";
      }
    } else if a[pbegin] == '#' {
      save' := pbegin;
    } else {
      found := true;
      if a[pbegin] == '"' {
        arg, save', w' := Word(w, a, save, pbegin + 1, end, QUOTES);
      } else {
        arg, save', w' := Word(w, a, save, pbegin, end, SEPARATORS);
      }
    }
  }

  method Word(w: World, a: array<char>, ghost save: nat, pbegin: nat, ghost end: nat, term: set<char>)
    returns (arg: string, save': nat, w': World)
    requires save <= pbegin && IsStr(a[..], save, end) && pbegin <= end && Clean(w)
    requires pbegin == save ==> pbegin < end && a[pbegin] !in term
    modifies a
    ensures save <= save' <= end && Clean(w')
    ensures Token(arg, save' - save, w') == LexWord(w, old(a[save..end]), pbegin - save, term)
    ensures forall k :: 0 <= k < pbegin || save' <= k < a.Length ==> a[k] == old(a[k])
  {
    hide Scan; hide Expand; hide Clean; hide Afterwards;
    ghost var s, b := a[save..end], pbegin - save;
    assert s[b..] == a[pbegin..end];
    var pend := FindEnd(a, pbegin, end, term);
    assert s[b..b + (pend - pbegin)] == a[pbegin..pend];
    save' := pend;
    if a[pend] != NUL {
      a[pend] := NUL;
      save' := pend + 1;
    }
    assert a[pbegin..pend] == s[b..b + (pend - pbegin)];
    arg, w' := ArgExpand(w, a, pbegin, pend);
  }

  lemma TokensStep(w: World, s: string, limit: nat)
    ensures
      var r := Lex(w, s);
      if limit == 0 || r.End? then Tokens(w, s, limit) == ([], w)
      else
        var rest := Tokens(r.world, s[r.resume..], limit - 1);
        Tokens(w, s, limit) == ([r.arg] + rest.0, rest.1)
  {
    hide Lex;
  }

  /** The argument loop of `nsh_parse_cmdparm`, with room for `limit` arguments. */
  method Arguments(w: World, a: array<char>, start: nat, ghost end: nat, limit: nat)
    returns (args: seq<string>, w': World)
    requires IsStr(a[..], start, end) && Clean(w)
    modifies a
    ensures (args, w') == Tokens(w, old(a[start..end]), limit)
  {
    hide Lex; hide Clean; hide Tokens;
    var save, more := start, true;
    args, w' := [], w;
    ghost var all := Tokens(w, a[start..end], limit);
    assert [] + all.0 == all.0;
    while |args| < limit && more
      invariant start <= save <= end && |args| <= limit && Clean(w')
      invariant forall k :: save <= k < a.Length ==> a[k] == old(a[k])
      invariant
        if more then
          var (rest, last) := Tokens(w', a[save..end], limit - |args|);
          all == (args + rest, last)
        else all == (args, w')
      decreases limit - |args|, more
    {
      var arg;
      ghost var s, before := a[save..end], w';
      more, arg, save, w' := Argument(w', a, save, end);
      TokensStep(before, s, limit - |args|);
      if more {
        ghost var r := Lex(before, s).resume;
        assert a[save..end] == s[r..];
        ghost var rest := Tokens(w', a[save..end], limit - |args| - 1).0;
        assert args + ([arg] + rest) == (args + [arg]) + rest;
        args := args + [arg];
      } else {
        assert args + [] == args;
      }
    }
    TokensStep(w', a[save..end], 0);
    assert args + [] == args;
  }
}
