/**
  Expansion is compositional: an argument built from literals, `${name}` references and
  back-quoted commands expands to its parts in order.
*/
module ExpansionLaws {
  import opened Escape
  import opened Expander

  datatype Piece = Literal(text: string) | Variable(name: string) | Output(command: string)

  /** No unescaped character of `cs`, and no escape left open at the end. */
  predicate Closed(s: string, cs: set<char>) {
    FirstUnescaped(s, cs, 0) == |s| && !Escaped(s, |s|)
  }

  predicate WellFormed(p: Piece) {
    match p
    case Literal(t) => Closed(t, SPECIAL)
    case Variable(n) => Closed(n, {'}'})
    case Output(c) => Closed(c, {'`'})
  }

  function Written(p: Piece): (s: string) {
    match p
    case Literal(t) => t
    case Variable(n) => ['$', '{'] + n + ['}']
    case Output(c) => ['`'] + c + ['`']
  }

  function Write(ps: seq<Piece>): (s: string) {
    if ps == [] then "" else Written(ps[0]) + Write(ps[1..])
  }

  /** What a piece stands for, before quoting is removed. */
  function Replaced(w: World, p: Piece): (s: string) {
    match p
    case Literal(t) => t
    case Variable(n) => Value(w, n)
    case Output(c) => w.Output(c)
  }

  /** The world behind a piece: a command may set the exit status and variables for what follows. */
  function Next(w: World, p: Piece): (w': World) {
    if p.Output? then w.Then(p.command) else w
  }

  function Last(w: World, ps: seq<Piece>): (w': World)
    decreases |ps|
  {
    if ps == [] then w else Last(Next(w, ps[0]), ps[1..])
  }

  function Replace(w: World, ps: seq<Piece>): (s: string)
    decreases |ps|
  {
    if ps == [] then "" else Replaced(w, ps[0]) + Replace(Next(w, ps[0]), ps[1..])
  }

  /** The pieces in order, each without its quoting and in the world that the commands before it leave. */
  function Show(w: World, ps: seq<Piece>): (s: string)
    decreases |ps|
  {
    if ps == [] then "" else Dequoted(Replaced(w, ps[0]), false) + Show(Next(w, ps[0]), ps[1..])
  }

  lemma FirstAfterClosed(s: string, t: string, cs: set<char>)
    requires Closed(s, cs)
    ensures FirstUnescaped(s + t, cs, 0) == |s| + FirstUnescaped(t, cs, 0)
  {
    var n := FirstUnescaped(t, cs, 0);
    forall k | 0 <= k < |s| ensures (s + t)[k] !in cs || Escaped(s + t, k) {
      EscapedPrefix(s, t, k);
    }
    forall k | 0 <= k <= |t| ensures Escaped(s + t, |s| + k) == Escaped(t, k) {
      EscapedSuffix(s, t, k);
    }
    assert forall k :: |s| <= k < |s| + n ==>
      (s + t)[k] == t[k - |s|] && Escaped(s + t, |s| + (k - |s|)) == Escaped(t, k - |s|);
    if n < |t| {
      assert (s + t)[|s| + n] in cs && !Escaped(s + t, |s| + n);
    }
  }

  /** The same construct with the text `t` in front. */
  function Moved(c: Cut, t: string): (d: Cut) {
    match c
    case Whole => Whole
    case Missing => Missing
    case Command(before, inside, resume) => Command(t + before, inside, |t| + resume)
    case Reference(before, inside, resume) => Reference(t + before, inside, |t| + resume)
  }

  lemma CutAfterLiteral(t: string, s: string)
    requires Closed(t, SPECIAL)
    ensures CutFirst(t + s) == Moved(CutFirst(s), t)
  {
    hide FirstUnescaped; hide Escaped; hide Closed; hide CutFirst;
    FirstAfterClosed(t, s, SPECIAL);
    var u, n := t + s, FirstUnescaped(s, SPECIAL, 0);
    if n == |s| {
      CutNothing(s);
      CutNothing(u);
    } else {
      Shifted(t, s, n);
      if s[n] == '`' {
        CutAtBackquote(s, n);
        CutAtBackquote(u, |t| + n);
      } else {
        DollarAfterLiteral(t, s, n);
      }
    }
  }

  lemma Shifted(t: string, s: string, n: nat)
    requires n < |s|
    ensures
      var u := t + s;
      && u[|t| + n] == s[n] && u[|t| + n + 1..] == s[n + 1..] && u[..|t| + n] == t + s[..n]
      && (n + 1 < |s| ==> u[|t| + n + 1] == s[n + 1] && u[|t| + n + 2..] == s[n + 2..])
  {
  }

  lemma DollarAfterLiteral(t: string, s: string, n: nat)
    requires n == FirstUnescaped(s, SPECIAL, 0) < |s| && s[n] == '$'
    requires FirstUnescaped(t + s, SPECIAL, 0) == |t| + n
    ensures CutFirst(t + s) == Moved(CutFirst(s), t)
  {
    hide CutFirst; hide FirstUnescaped; hide Escaped;
    Shifted(t, s, n);
    var u := t + s;
    if n + 1 < |s| && s[n + 1] == '{' {
      var rest := s[n + 2..];
      var m := FirstUnescaped(rest, {'}'}, 0);
      CutBraced(s, n, rest, m);
      CutBraced(u, |t| + n, rest, m);
    } else {
      CutBare(s, n);
      CutBare(u, |t| + n);
    }
  }

  /** What is put in front goes in front of the text. */
  lemma AfterMoved(e: Expansion, t: string, before: string, value: string)
    ensures e.After(before + value).After(t) == e.After((t + before) + value)
  {
    AfterTwice(e, t, before + value);
    assert t + (before + value) == (t + before) + value;
  }

  lemma RestMoved(t: string, s: string, resume: nat)
    requires resume <= |s|
    ensures (t + s)[|t| + resume..] == s[resume..]
  {
  }

  lemma RawAfterLiteral(w: World, t: string, s: string)
    requires Closed(t, SPECIAL)
    ensures Raw(w, t + s) == Raw(w, s).After(t)
  {
    hide CutFirst; hide Value; hide Raw; hide Closed; hide Expansion.After;
    CutAfterLiteral(t, s);
    match CutFirst(s)
    case Whole =>
      RawWhole(w, s);
      RawWhole(w, t + s);
      AfterText(w, s, t);
    case Missing =>
      RawMissing(w, s);
      RawMissing(w, t + s);
      AfterText(w, s, t);
    case Command(before, inside, resume) =>
      RawCommand(w, s, before, inside, resume);
      RawCommand(w, t + s, t + before, inside, |t| + resume);
      RestMoved(t, s, resume);
      AfterMoved(Raw(w.Then(inside), s[resume..]), t, before, w.Output(inside));
    case Reference(before, inside, resume) =>
      RawReference(w, s, before, inside, resume);
      RawReference(w, t + s, t + before, inside, |t| + resume);
      RestMoved(t, s, resume);
      AfterMoved(Raw(w, s[resume..]), t, before, Value(w, inside));
  }

  lemma AfterText(w: World, s: string, t: string)
    ensures Text(s, w).After(t) == Text(t + s, w) && Unmatched(w).After(t) == Unmatched(w)
  {
  }

  lemma FirstAtStart(s: string, cs: set<char>)
    requires s != [] && s[0] in cs
    ensures FirstUnescaped(s, cs, 0) == 0
  {
  }

  lemma RawVariable(w: World, name: string, s: string)
    requires Closed(name, {'}'})
    ensures Raw(w, ['$', '{'] + name + ['}'] + s) == Raw(w, s).After(Value(w, name))
  {
    hide Raw; hide Value; hide FirstUnescaped; hide Escaped; hide Closed;
    var all, tail := ['$', '{'] + name + ['}'] + s, ['}'] + s;
    assert all[2..] == name + tail && all[|name| + 3..] == s;
    FirstAfterClosed(name, tail, {'}'});
    FirstAtStart(all, SPECIAL);
    FirstAtStart(tail, {'}'});
    assert all[2..][..|name|] == name && all[..0] + Value(w, name) == Value(w, name);
    RawReference(w, all, all[..0], name, |name| + 3);
  }

  lemma RawWhole(w: World, s: string)
    requires CutFirst(s) == Whole
    ensures Raw(w, s) == Text(s, w)
  {
    hide CutFirst;
  }

  lemma RawMissing(w: World, s: string)
    requires CutFirst(s) == Missing
    ensures Raw(w, s) == Unmatched(w)
  {
    hide CutFirst;
  }

  lemma RawReference(w: World, s: string, before: string, inside: string, resume: nat)
    requires CutFirst(s) == Reference(before, inside, resume)
    ensures Raw(w, s) == Raw(w, s[resume..]).After(before + Value(w, inside))
  {
    hide CutFirst; hide Value;
  }

  lemma RawCommand(w: World, s: string, before: string, inside: string, resume: nat)
    requires CutFirst(s) == Command(before, inside, resume)
    ensures Raw(w, s) == Raw(w.Then(inside), s[resume..]).After(before + w.Output(inside))
  {
    hide CutFirst; hide Value;
  }

  lemma RawOutput(w: World, cmd: string, s: string)
    requires Closed(cmd, {'`'})
    ensures Raw(w, ['`'] + cmd + ['`'] + s) == Raw(w.Then(cmd), s).After(w.Output(cmd))
  {
    hide Raw; hide Value; hide FirstUnescaped; hide Escaped; hide Closed;
    var all, tail := ['`'] + cmd + ['`'] + s, ['`'] + s;
    assert all[1..] == cmd + tail && all[|cmd| + 2..] == s;
    FirstAfterClosed(cmd, tail, {'`'});
    FirstAtStart(all, SPECIAL);
    FirstAtStart(tail, {'`'});
    assert all[1..][..|cmd|] == cmd && all[..0] + w.Output(cmd) == w.Output(cmd);
    RawCommand(w, all, all[..0], cmd, |cmd| + 2);
  }

  lemma RawOfPiece(w: World, p: Piece, rest: string)
    requires WellFormed(p)
    ensures Raw(w, Written(p) + rest) == Raw(Next(w, p), rest).After(Replaced(w, p))
  {
    hide Raw; hide Value; hide Closed;
    match p
    case Literal(t) => RawAfterLiteral(w, t, rest);
    case Variable(n) => RawVariable(w, n, rest);
    case Output(c) => RawOutput(w, c, rest);
  }

  lemma {:induction false} RawOfPieces(w: World, ps: seq<Piece>, tail: string)
    requires forall p :: p in ps ==> WellFormed(p)
    ensures Raw(w, Write(ps) + tail) == Raw(Last(w, ps), tail).After(Replace(w, ps))
    decreases |ps|
  {
    hide Raw; hide Replaced; hide WellFormed; hide Written; hide Next;
    if ps == [] {
      assert Write(ps) + tail == tail;
      AfterNothing(Raw(w, tail));
    } else {
      var rest := Write(ps[1..]) + tail;
      var next := Next(w, ps[0]);
      RawOfPieces(next, ps[1..], tail);
      RawOfPiece(w, ps[0], rest);
      assert Write(ps) + tail == Written(ps[0]) + rest;
      AfterTwice(Raw(Last(w, ps), tail), Replaced(w, ps[0]), Replace(next, ps[1..]));
    }
  }

  lemma AfterNothing(x: Expansion)
    ensures x.After("") == x
  {
  }

  /** No piece ends in an open escape. */
  predicate NoneOpen(w: World, ps: seq<Piece>)
    decreases |ps|
  {
    ps == [] || (!Escaped(Replaced(w, ps[0]), |Replaced(w, ps[0])|) && NoneOpen(Next(w, ps[0]), ps[1..]))
  }

  lemma {:induction false} ShowIsDequoted(w: World, ps: seq<Piece>, tail: string)
    requires NoneOpen(w, ps)
    ensures Dequoted(Replace(w, ps) + tail, false) == Show(w, ps) + Dequoted(tail, false)
    decreases |ps|
  {
    hide Value; hide Next; hide Replaced;
    if ps == [] {
      assert Replace(w, ps) + tail == tail;
    } else {
      var next := Next(w, ps[0]);
      var head, rest := Replaced(w, ps[0]), Replace(next, ps[1..]) + tail;
      assert Replace(w, ps) + tail == head + rest;
      DequotedConcat(head, rest);
      ShowIsDequoted(next, ps[1..], tail);
      assert Show(w, ps) + Dequoted(tail, false)
          == Dequoted(head, false) + (Show(next, ps[1..]) + Dequoted(tail, false));
    }
  }

  /** Some piece ends in an open escape and an odd number of backslashes follows it. */
  predicate Clash(w: World, ps: seq<Piece>)
    decreases |ps|
  {
    ps != [] && (Clash(Next(w, ps[0]), ps[1..])
      || (Escaped(Replaced(w, ps[0]), |Replaced(w, ps[0])|) && Leading(Replace(Next(w, ps[0]), ps[1..])) % 2 == 1))
  }

  /** Each clash adds a character. */
  lemma {:induction false} ClashShows(w: World, ps: seq<Piece>)
    ensures !Clash(w, ps) ==> Dequoted(Replace(w, ps), false) == Show(w, ps)
    ensures |Dequoted(Replace(w, ps), false)| >= |Show(w, ps)| + if Clash(w, ps) then 1 else 0
    decreases |ps|
  {
    hide Value; hide Dequoted; hide Next; hide Replaced;
    if ps == [] {
      DequotedNothing();
    } else {
      var head, rest := Replaced(w, ps[0]), Replace(Next(w, ps[0]), ps[1..]);
      DequotedConcat(head, rest);
      OpenEscapeBefore(rest);
      ClashShows(Next(w, ps[0]), ps[1..]);
    }
  }

  lemma DequotedNothing()
    ensures Dequoted("", false) == ""
  {
  }

  /** What an argument expands to, before its parts are looked at one by one. */
  lemma ExpandIsReplaced(w: World, ps: seq<Piece>)
    requires forall p :: p in ps ==> WellFormed(p)
    ensures Expand(w, Write(ps)) == Dequoted(Replace(w, ps), false) && Afterwards(w, Write(ps)) == Last(w, ps)
  {
    hide Raw; hide Value; hide FirstUnescaped; hide Closed; hide Last;
    RawOfPieces(w, ps, "");
    assert Write(ps) + "" == Write(ps) && Replace(w, ps) + "" == Replace(w, ps);
    RawEmpty(Last(w, ps));
  }

  /**
    Compositionality.  The argument becomes each literal without its quoting and each value
    without its quoting, in order, if and only if no piece that ends in an open escape is
    followed by an odd number of backslashes.  Each piece sees the exit status and the
    variables that the commands before it leave.
  */
  lemma ExpansionIsCompositional(w: World, ps: seq<Piece>)
    requires forall p :: p in ps ==> WellFormed(p)
    ensures Expand(w, Write(ps)) == Show(w, ps) <==> !Clash(w, ps)
    ensures Afterwards(w, Write(ps)) == Last(w, ps)
  {
    hide Expand; hide Clash; hide Dequoted; hide Show; hide WellFormed; hide Afterwards; hide Last;
    ExpandIsReplaced(w, ps);
    ClashShows(w, ps);
  }

  /** In particular if no literal and no value ends in an open escape. */
  lemma {:induction false} ClosedDoNotClash(w: World, ps: seq<Piece>)
    requires NoneOpen(w, ps)
    ensures !Clash(w, ps)
    decreases |ps|
  {
    hide Value; hide Escaped;
    if ps != [] {
      ClosedDoNotClash(Next(w, ps[0]), ps[1..]);
    }
  }

  lemma RawEmpty(w: World)
    ensures Raw(w, "") == Text("", w)
  {
  }

  /** A dollar sign without brackets takes the rest of the argument for its name. */
  lemma BareReferenceIsLast(w: World, ps: seq<Piece>, name: string)
    requires NoneOpen(w, ps) && forall p :: p in ps ==> WellFormed(p)
    requires name != [] ==> name[0] != '{'
    ensures Expand(w, Write(ps) + (['$'] + name)) == Show(w, ps) + Dequoted(Value(Last(w, ps), name), false)
  {
    hide Raw; hide Value; hide Closed; hide Last; hide NoneOpen;
    var tail, last := ['$'] + name, Last(w, ps);
    RawOfPieces(w, ps, tail);
    FirstAtStart(tail, SPECIAL);
    assert tail[1..] == name;
    RawReference(last, tail, tail[..0], name, |tail|);
    assert tail[|tail|..] == "" && tail[..0] + Value(last, name) == Value(last, name);
    RawEmpty(last);
    assert Value(last, name) + "" == Value(last, name);
    ShowIsDequoted(w, ps, Value(last, name));
  }

  /** A variable by itself. */
  lemma OneVariable(w: World, name: string)
    requires Closed(name, {'}'})
    ensures Expand(w, Write([Variable(name)])) == Dequoted(Value(w, name), false)
  {
    hide Expand; hide Closed; hide Dequoted; hide Value;
    var p := Variable(name);
    assert WellFormed(p);
    ExpandIsReplaced(w, [p]);
    assert Replace(w, [p]) == Value(w, name) + Replace(w, []) == Value(w, name);
  }

  /** A value without backslashes is put in as it is, and only such a value is. */
  lemma VariableVerbatimExactly(w: World, name: string)
    requires Closed(name, {'}'})
    ensures Expand(w, Write([Variable(name)])) == Value(w, name) <==> BACKSLASH !in Value(w, name)
  {
    hide Expand; hide Closed; hide Dequoted; hide Value;
    OneVariable(w, name);
    VerbatimExactly(Value(w, name));
  }

  /** NSH variables take precedence over the environment, and an unknown name stands for nothing. */
  lemma LookupOrder(w: World, name: string)
    requires Closed(name, {'}'}) && name != "?"
    ensures
      var shown := Expand(w, Write([Variable(name)]));
      var st := w.state;
      && (name in st.vars ==> shown == Dequoted(st.vars[name], false))
      && (name !in st.vars && name in st.env ==> shown == Dequoted(st.env[name], false))
      && (name !in st.vars && name !in st.env ==> shown == "")
  {
    hide Expand; hide Write; hide Dequoted;
    OneVariable(w, name);
    DequotedNothing();
  }

  /** The exit status behind a back-quoted command is that of the command. */
  lemma StatusOfCommand(w: World, cmd: string)
    requires Closed(cmd, {'`'})
    ensures Expand(w, Write([Output(cmd), Variable("?")]))
         == Dequoted(w.Output(cmd), false) + if w.Then(cmd).state.fail then "1" else "0"
  {
    hide Expand; hide FirstUnescaped; hide Write; hide Closed; hide Dequoted; hide Escaped; hide Value; hide Clash;
    hide Afterwards; hide Leading;
    var ps, next := [Output(cmd), Variable("?")], w.Then(cmd);
    QuestionMarkClosed();
    assert ps[1..] == [Variable("?")] && ps[1..][1..] == [];
    assert Replace(next, ps[1..]) == Value(next, "?") + "" == Value(next, "?");
    assert Show(next, ps[1..]) == Dequoted(Value(next, "?"), false) + Show(next, []);
    StatusPlain(next);
    StatusDoesNotClash(w, ps, next);
    ExpansionIsCompositional(w, ps);
    VerbatimExactly(Value(next, "?"));
  }

  lemma StatusPlain(w: World)
    ensures Value(w, "?") == (if w.state.fail then "1" else "0") && BACKSLASH !in Value(w, "?")
    ensures Leading(Value(w, "?")) == 0
  {
  }

  lemma StatusDoesNotClash(w: World, ps: seq<Piece>, next: World)
    requires |ps| == 2 && next == Next(w, ps[0]) && ps[1] == Variable("?") && Leading(Value(next, "?")) == 0
    ensures !Clash(w, ps)
  {
    hide Value; hide Leading; hide Escaped;
    var rest := ps[1..];
    assert rest == [Variable("?")] && rest[1..] == [];
    assert Replace(next, rest) == Value(next, "?") + "" == Value(next, "?");
    assert Leading("") == 0 by { NoneLeading(); }
    assert Replace(Next(next, rest[0]), rest[1..]) == "";
    assert !Clash(next, rest);
  }

  lemma NoneLeading()
    ensures Leading("") == 0
  {
  }

  lemma QuestionMarkClosed()
    ensures Closed("?", {'}'})
  {
    assert !Escaped("?", 0) && !Escaped("?", 1);
  }
}
