/**
  The meaning of every argument.  Any string is a list of pieces and a tail: a text without
  special characters, a variable without braces, or a `${` or back-quote that is never closed.
*/
module ExpansionWhole {
  import opened Escape
  import opened Expander
  import opened ExpansionLaws

  datatype Tail = Rest(text: string) | Bare(name: string) | OpenBrace(text: string) | OpenQuote(text: string)

  predicate GoodTail(t: Tail) {
    match t
    case Rest(s) => FirstUnescaped(s, SPECIAL, 0) == |s|
    case Bare(n) => n == [] || n[0] != '{'
    case OpenBrace(s) => FirstUnescaped(s, {'}'}, 0) == |s|
    case OpenQuote(s) => FirstUnescaped(s, {'`'}, 0) == |s|
  }

  function TailText(t: Tail): (s: string) {
    match t
    case Rest(s) => s
    case Bare(n) => ['$'] + n
    case OpenBrace(s) => ['$', '{'] + s
    case OpenQuote(s) => ['`'] + s
  }

  /** The text up to an unescaped character is closed. */
  lemma ClosedBefore(s: string, cs: set<char>)
    requires FirstUnescaped(s, cs, 0) < |s|
    ensures Closed(s[..FirstUnescaped(s, cs, 0)], cs)
  {
    var n := FirstUnescaped(s, cs, 0);
    var front := s[..n];
    assert s == front + s[n..];
    forall k | 0 <= k <= n ensures Escaped(front, k) == Escaped(s, k) {
      EscapedPrefix(front, s[n..], k);
    }
    assert forall k :: 0 <= k < n ==> front[k] == s[k];
  }

  lemma WrittenPieces(front: string, p: Piece, ps: seq<Piece>)
    ensures Write([Literal(front)]) == front
    ensures Write([Literal(front), p] + ps) == front + (Written(p) + Write(ps))
  {
    var q := Literal(front);
    assert [q][1..] == [] && front + "" == front;
    assert ([q, p] + ps)[1..] == [p] + ps && ([p] + ps)[1..] == ps;
  }

  lemma Prepended(front: string, p: Piece, rest: string, ps: seq<Piece>, t: Tail)
    requires rest == Write(ps) + TailText(t)
    ensures front + (Written(p) + rest) == Write([Literal(front), p] + ps) + TailText(t)
  {
    hide Written; hide TailText; hide Write;
    WrittenPieces(front, p, ps);
  }

  lemma SplitAt(s: string, i: nat)
    requires i < |s|
    ensures s == s[..i] + ([s[i]] + s[i + 1..])
  {
  }

  lemma Regroup(a: string, b: string, c: string, d: string)
    ensures a + (b + (c + d)) == a + b + c + d
  {
  }

  lemma QuoteSplits(s: string, n: nat, m: nat)
    requires n < |s| && s[n] == '`' && m < |s[n + 1..]| && s[n + 1..][m] == '`'
    ensures s == s[..n] + (Written(Output(s[n + 1..][..m])) + s[n + 1..][m + 1..])
  {
    var u := s[n + 1..];
    SplitAt(s, n);
    SplitAt(u, m);
    Regroup(['`'], u[..m], ['`'], u[m + 1..]);
  }

  lemma BraceSplits(s: string, n: nat, m: nat)
    requires n + 1 < |s| && s[n] == '$' && s[n + 1] == '{' && m < |s[n + 2..]| && s[n + 2..][m] == '}'
    ensures s == s[..n] + (Written(Variable(s[n + 2..][..m])) + s[n + 2..][m + 1..])
  {
    var u := s[n + 2..];
    OpensBrace(s, n);
    SplitAt(u, m);
    Regroup(['$', '{'], u[..m], ['}'], u[m + 1..]);
  }

  lemma OpensBrace(s: string, n: nat)
    requires n + 1 < |s| && s[n] == '$' && s[n + 1] == '{'
    ensures s == s[..n] + (['$', '{'] + s[n + 2..])
  {
    SplitAt(s, n);
    assert s[n..] == ['$', '{'] + s[n + 2..];
  }

  lemma Unclosed(s: string, n: nat, t: Tail)
    requires n < |s| && s[n..] == TailText(t)
    ensures s == Write([Literal(s[..n])]) + TailText(t)
  {
    hide Write; hide TailText;
    WrittenPieces(s[..n], Literal(""), []);
    assert s == s[..n] + s[n..];
  }

  /** Every string is pieces and a tail. */
  lemma {:induction false} Decomposed(s: string) returns (ps: seq<Piece>, t: Tail)
    ensures (forall p :: p in ps ==> WellFormed(p)) && GoodTail(t) && s == Write(ps) + TailText(t)
    decreases |s|, 1
  {
    hide FirstUnescaped; hide Escaped; hide Closed; hide Write; hide Written;
    var n := FirstUnescaped(s, SPECIAL, 0);
    if n == |s| {
      NoPieces();
      return [], Rest(s);
    }
    ClosedBefore(s, SPECIAL);
    if s[n] == '`' {
      ps, t := AtBackquote(s, n);
    } else if n + 1 < |s| && s[n + 1] == '{' {
      ps, t := AtBrace(s, n);
    } else {
      ps, t := [Literal(s[..n])], Bare(s[n + 1..]);
      Unclosed(s, n, t);
    }
  }

  lemma NoPieces()
    ensures Write([]) == ""
  {
  }

  lemma {:induction false} AtBackquote(s: string, n: nat) returns (ps: seq<Piece>, t: Tail)
    requires n < |s| && s[n] == '`' && Closed(s[..n], SPECIAL)
    ensures (forall p :: p in ps ==> WellFormed(p)) && GoodTail(t) && s == Write(ps) + TailText(t)
    decreases |s|, 0
  {
    hide FirstUnescaped; hide Escaped; hide Closed; hide Write; hide Written;
    var u := s[n + 1..];
    var m := FirstUnescaped(u, {'`'}, 0);
    if m == |u| {
      ps, t := [Literal(s[..n])], OpenQuote(u);
      Unclosed(s, n, t);
    } else {
      ClosedBefore(u, {'`'});
      var p := Output(u[..m]);
      ps, t := Decomposed(u[m + 1..]);
      QuoteSplits(s, n, m);
      Prepended(s[..n], p, u[m + 1..], ps, t);
      ps := [Literal(s[..n]), p] + ps;
    }
  }

  lemma {:induction false} AtBrace(s: string, n: nat) returns (ps: seq<Piece>, t: Tail)
    requires n + 1 < |s| && s[n] == '$' && s[n + 1] == '{' && Closed(s[..n], SPECIAL)
    ensures (forall p :: p in ps ==> WellFormed(p)) && GoodTail(t) && s == Write(ps) + TailText(t)
    decreases |s|, 0
  {
    hide FirstUnescaped; hide Escaped; hide Closed; hide Write; hide Written;
    var u := s[n + 2..];
    var m := FirstUnescaped(u, {'}'}, 0);
    if m == |u| {
      ps, t := [Literal(s[..n])], OpenBrace(u);
      Unclosed(s, n, t);
    } else {
      ClosedBefore(u, {'}'});
      var p := Variable(u[..m]);
      ps, t := Decomposed(u[m + 1..]);
      BraceSplits(s, n, m);
      Prepended(s[..n], p, u[m + 1..], ps, t);
      ps := [Literal(s[..n]), p] + ps;
    }
  }

  /** What the tail adds, or nothing at all if something is not closed. */
  function WholeMeaning(w: World, ps: seq<Piece>, t: Tail): (s: string) {
    match t
    case Rest(s) => Dequoted(Replace(w, ps) + s, false)
    case Bare(n) => Dequoted(Replace(w, ps) + Value(Last(w, ps), n), false)
    case OpenBrace(_) => ""
    case OpenQuote(_) => ""
  }

  lemma RawTail(w: World, t: Tail)
    requires GoodTail(t)
    ensures t.Rest? ==> Raw(w, TailText(t)) == Text(t.text, w)
    ensures t.Bare? ==> Raw(w, TailText(t)) == Text(Value(w, t.name), w)
    ensures t.OpenBrace? || t.OpenQuote? ==> Raw(w, TailText(t)) == Unmatched(w)
  {
    hide Value; hide Escaped; hide FirstUnescaped;
    var s := TailText(t);
    match t
    case Rest(_) =>
    case Bare(n) =>
      FirstAtStart(s, SPECIAL);
      assert s[1..] == n && s[..0] + Value(w, n) == Value(w, n) && s[|s|..] == "";
      RawReference(w, s, s[..0], n, |s|);
      RawEmpty(w);
      assert Value(w, n) + "" == Value(w, n);
    case OpenBrace(u) =>
      FirstAtStart(s, SPECIAL);
      assert s[2..] == u;
    case OpenQuote(u) =>
      FirstAtStart(s, SPECIAL);
      assert s[1..] == u;
  }

  /**
    Every argument, closed or not: its expansion is the dequoted text in which each piece is
    replaced, and nothing if a `${` or a back-quote in it is not closed; the commands before that
    have run all the same.
  */
  lemma EveryArgument(w: World, s: string) returns (ps: seq<Piece>, t: Tail)
    ensures (forall p :: p in ps ==> WellFormed(p)) && GoodTail(t) && s == Write(ps) + TailText(t)
    ensures Expand(w, s) == WholeMeaning(w, ps, t) && Afterwards(w, s) == Last(w, ps)
  {
    hide Raw; hide Value; hide Dequoted; hide Last; hide GoodTail; hide TailText; hide WellFormed;
    ps, t := Decomposed(s);
    RawOfPieces(w, ps, TailText(t));
    RawTail(Last(w, ps), t);
  }
}
