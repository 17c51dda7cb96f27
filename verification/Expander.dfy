/**
  Expansion of one argument: `nsh_argexpand` with `nsh_envexpand`, for the build with
  CONFIG_NSH_QUOTE, CONFIG_NSH_ARGCAT, CONFIG_NSH_CMDPARMS and NSH variables.
*/
module Expander {
  import opened Escape
  import opened LineBuffer

  /** What variables are looked up in: the exit status, the NSH variables and the environment. */
  datatype State = State(fail: bool, vars: map<string, string>, env: map<string, string>)

  /** What expansion depends on; `run` gives the output of a back-quoted command and the state that it leaves. */
  datatype World = World(state: State, run: (State, string) -> (string, State))
  {
    function Output(command: string): string {
      run(state, command).0
    }

    /** The world in which the text behind the command is expanded. */
    function Then(command: string): World {
      World(run(state, command).1, run)
    }
  }

  /** `nsh_envexpand`. */
  function Value(w: World, name: string): (v: string) {
    if name == "?" then (if w.state.fail then "1" else "0")
    else if name in w.state.vars then w.state.vars[name]
    else if name in w.state.env then w.state.env[name]
    else ""
  }

  const SPECIAL: set<char> := {'`', '$'}

  /**
    The text put together from an argument before quoting is removed, unless a bracket or
    back-quote is missing, and the world that its commands leave.
  */
  datatype Expansion = Unmatched(world: World) | Text(text: string, world: World)
  {
    function After(s: string): Expansion {
      if Unmatched? then this else Text(s + text, world)
    }
  }

  /** The first special construct of a string: what comes before it, what is inside, where the text goes on. */
  datatype Cut =
    | Whole
    | Missing
    | Command(before: string, inside: string, resume: nat)
    | Reference(before: string, inside: string, resume: nat)

  function CutFirst(s: string): (c: Cut)
    ensures c.Command? || c.Reference? ==> 0 < c.resume <= |s|
  {
    var n := FirstUnescaped(s, SPECIAL, 0);
    if n == |s| then Whole
    else if s[n] == '`' then
      var t := s[n + 1..];
      var m := FirstUnescaped(t, {'`'}, 0);
      if m == |t| then Missing else Command(s[..n], t[..m], n + m + 2)
    else if n + 1 < |s| && s[n + 1] == '{' then
      var t := s[n + 2..];
      var m := FirstUnescaped(t, {'}'}, 0);
      if m == |t| then Missing else Reference(s[..n], t[..m], n + m + 3)
    else Reference(s[..n], s[n + 1..], |s|)
  }

  function Raw(w: World, s: string): (r: Expansion)
    decreases |s|
  {
    match CutFirst(s)
    case Whole => Text(s, w)
    case Missing => Unmatched(w)
    case Command(before, inside, resume) => Raw(w.Then(inside), s[resume..]).After(before + w.Output(inside))
    case Reference(before, inside, resume) => Raw(w, s[resume..]).After(before + Value(w, inside))
  }

  /** The argument that the command sees. */
  function Expand(w: World, s: string): (r: string) {
    match Raw(w, s)
    case Unmatched(_) => ""
    case Text(t, _) => Dequoted(t, false)
  }

  /** The world after the back-quoted commands of the argument. */
  function Afterwards(w: World, s: string): (w': World) {
    Raw(w, s).world
  }

  /** `strcspn` with the special characters. */
  method Strcspn(a: array<char>, from: nat, ghost end: nat) returns (at: nat)
    requires IsStr(a[..], from, end)
    ensures from <= at <= end && (at < end ==> a[at] in SPECIAL)
    ensures forall k :: from <= k < at ==> a[k] !in SPECIAL
  {
    at := from;
    while a[at] != NUL && a[at] != '`' && a[at] != '$'
      invariant from <= at <= end
      invariant forall k :: from <= k < at ==> a[k] !in SPECIAL
      decreases end - at
    {
      at := at + 1;
    }
  }

  /** Looking back from `ptr`: is the number of backslashes before it odd? */
  method IsQuoted(a: array<char>, working: nat, ptr: nat) returns (quoted: bool)
    requires working <= ptr <= a.Length
    ensures quoted == Escaped(a[working..ptr], ptr - working)
  {
    ghost var s := a[working..ptr];
    var bcount := 0;
    quoted := false;
    while bcount < ptr - working && a[ptr - 1 - bcount] == BACKSLASH
      invariant bcount <= ptr - working && quoted == (bcount % 2 == 1)
      invariant bcount <= BackslashesBefore(s, |s|)
    {
      assert s[|s| - 1 - bcount] == BACKSLASH;
      quoted := !quoted;
      bcount := bcount + 1;
    }
    assert bcount < |s| ==> s[|s| - 1 - bcount] != BACKSLASH;
    assert BackslashesBefore(s, |s|) == bcount;
    ParityAgrees(s, |s|);
  }

  /** The next back-quote or dollar sign that is not quoted, or the end of the string. */
  method FindSpecial(a: array<char>, working: nat, ghost end: nat) returns (ptr: nat)
    requires IsStr(a[..], working, end)
    ensures ptr == working + FirstUnescaped(a[working..end], SPECIAL, 0)
  {
    ghost var s := a[working..end];
    ptr := Strcspn(a, working, end);
    while ptr > working && a[ptr] != NUL
      invariant working <= ptr <= end && (ptr < end ==> a[ptr] in SPECIAL)
      invariant forall k :: 0 <= k < ptr - working ==> s[k] !in SPECIAL || Escaped(s, k)
      decreases end - ptr
    {
      var quoted := IsQuoted(a, working, ptr);
      assert s == a[working..ptr] + a[ptr..end];
      EscapedPrefix(a[working..ptr], a[ptr..end], ptr - working);
      if !quoted {
        return;
      }
      ptr := Strcspn(a, ptr + 1, end);
    }
  }

  lemma AfterTwice(x: Expansion, s: string, t: string)
    ensures x.After(t).After(s) == x.After(s + t)
  {
    if x.Text? {
      assert s + (t + x.text) == (s + t) + x.text;
    }
  }

  /** Removing the quoting from a string of its own, as for an argument that was put together. */
  method DequoteCopy(s: string) returns (r: string)
    requires NUL !in s
    ensures r == Dequoted(s, false)
  {
    var a := new char[|s| + 1](i requires 0 <= i => if i < |s| then s[i] else NUL);
    assert a[0..|s|] == s;
    var end := Dequote(a, 0, |s|);
    r := a[0..end];
  }

  ghost predicate CleanState(st: State) {
    && (forall name :: name in st.vars ==> NUL !in st.vars[name])
    && (forall name :: name in st.env ==> NUL !in st.env[name])
  }

  /** The outside world deals in C strings. */
  ghost predicate Clean(w: World) {
    && CleanState(w.state)
    && forall st, cmd :: CleanState(st) ==> NUL !in w.run(st, cmd).0 && CleanState(w.run(st, cmd).1)
  }

  /** Where the expansion loop stands: `argument` holds what comes before `working`, `now` is the world by then. */
  ghost predicate Expanding(
    w: World, now: World, a: seq<char>, whole: string, argument: string, working: nat, end: nat)
  {
    && Clean(now) && IsStr(a, working, end) && NUL !in argument
    && Raw(w, whole) == Raw(now, a[working..end]).After(argument)
  }

  method Strlen(a: array<char>, from: nat, ghost end: nat) returns (at: nat)
    requires IsStr(a[..], from, end)
    ensures at == end
  {
    at := from;
    while a[at] != NUL
      invariant from <= at <= end
      decreases end - at
    {
      at := at + 1;
    }
  }

  /** A command in back-quotes, or a back-quote that nothing closes. */
  method CutCommand(a: array<char>, working: nat, ptr: nat, ghost end: nat) returns (c: Cut)
    requires IsStr(a[..], working, end) && working <= ptr < end && a[ptr] == '`'
    requires ptr - working == FirstUnescaped(a[working..end], SPECIAL, 0)
    modifies a
    ensures c == CutFirst(old(a[working..end])) && !c.Whole?
    ensures forall k :: 0 <= k < working || end <= k < a.Length ==> a[k] == old(a[k])
    ensures c.Command? || c.Reference? ==> forall k :: working + c.resume <= k < a.Length ==> a[k] == old(a[k])
  {
    hide FirstUnescaped; hide Escaped; hide CutFirst;
    ghost var s, n := a[working..end], ptr - working;
    CutAtBackquote(s, n);
    a[ptr] := NUL;
    assert a[working..ptr] == s[..n] && a[ptr + 1..end] == s[n + 1..];
    var found, rptr := Strchr(a, ptr + 1, end, '`');
    if !found {
      return Missing;
    }
    a[rptr] := NUL;
    c := Command(a[working..ptr], a[ptr + 1..rptr], rptr + 1 - working);
    assert a[working..ptr] == s[..n] && a[ptr + 1..rptr] == s[n + 1..][..rptr - ptr - 1];
  }

  /** One round of `nsh_argexpand`: find the next construct, put terminators around it, name its parts. */
  method CutInPlace(a: array<char>, working: nat, ghost end: nat) returns (c: Cut)
    requires IsStr(a[..], working, end)
    modifies a
    ensures c == CutFirst(old(a[working..end]))
    ensures c.Whole? ==> a[..] == old(a[..])
    ensures forall k :: 0 <= k < working || end <= k < a.Length ==> a[k] == old(a[k])
    ensures c.Command? || c.Reference? ==> forall k :: working + c.resume <= k < a.Length ==> a[k] == old(a[k])
  {
    hide FirstUnescaped; hide Escaped; hide CutFirst;
    ghost var s := a[working..end];
    var ptr := FindSpecial(a, working, end);
    if a[ptr] == NUL {
      CutNothing(s);
      c := Whole;
    } else if a[ptr] == '`' {
      c := CutCommand(a, working, ptr, end);
    } else {
      c := CutReference(a, working, ptr, end);
    }
  }

  lemma CutNothing(s: string)
    requires FirstUnescaped(s, SPECIAL, 0) == |s|
    ensures CutFirst(s) == Whole
  {
  }

  lemma CutBraced(s: string, n: nat, t: string, m: nat)
    requires n == FirstUnescaped(s, SPECIAL, 0) && n + 1 < |s| && s[n] == '$' && s[n + 1] == '{'
    requires t == s[n + 2..] && m == FirstUnescaped(t, {'}'}, 0)
    ensures CutFirst(s) == if m == |t| then Missing else Reference(s[..n], t[..m], n + m + 3)
  {
    hide FirstUnescaped; hide Escaped;
  }

  lemma CutBare(s: string, n: nat)
    requires n == FirstUnescaped(s, SPECIAL, 0) < |s| && s[n] == '$' && (n + 1 == |s| || s[n + 1] != '{')
    ensures CutFirst(s) == Reference(s[..n], s[n + 1..], |s|)
  {
    hide FirstUnescaped; hide Escaped;
  }

  lemma CutAtBackquote(s: string, n: nat)
    requires n == FirstUnescaped(s, SPECIAL, 0) < |s| && s[n] == '`'
    ensures
      var t := s[n + 1..];
      var m := FirstUnescaped(t, {'`'}, 0);
      CutFirst(s) == if m == |t| then Missing else Command(s[..n], t[..m], n + m + 2)
  {
    hide FirstUnescaped; hide Escaped;
  }

  /** A dollar sign at `ptr`, with or without brackets. */
  method CutReference(a: array<char>, working: nat, ptr: nat, ghost end: nat) returns (c: Cut)
    requires IsStr(a[..], working, end) && working <= ptr < end && a[ptr] == '$'
    requires ptr - working == FirstUnescaped(a[working..end], SPECIAL, 0)
    modifies a
    ensures c == CutFirst(old(a[working..end])) && !c.Whole?
    ensures forall k :: 0 <= k < working || end <= k < a.Length ==> a[k] == old(a[k])
    ensures c.Command? || c.Reference? ==> forall k :: working + c.resume <= k < a.Length ==> a[k] == old(a[k])
  {
    hide FirstUnescaped; hide Escaped; hide CutFirst;
    ghost var s, n := a[working..end], ptr - working;
    a[ptr] := NUL;
    assert a[working..ptr] == s[..n] && a[ptr + 1..end] == s[n + 1..];
    if a[ptr + 1] == '{' {
      assert a[ptr + 2..end] == s[n + 2..];
      CutBraced(s, n, s[n + 2..], FirstUnescaped(s[n + 2..], {'}'}, 0));
      c := Braced(a, working, ptr, end, s);
    } else {
      CutBare(s, n);
      var stop := Strlen(a, ptr + 1, end);
      c := Reference(a[working..ptr], a[ptr + 1..stop], stop - working);
    }
  }

  /** A name in brackets; `s` is the text before the dollar sign was overwritten. */
  method Braced(a: array<char>, working: nat, ptr: nat, ghost end: nat, ghost s: string) returns (c: Cut)
    requires working <= ptr && IsStr(a[..], ptr + 2, end) && |s| == end - working
    requires a[working..ptr] == s[..ptr - working] && a[ptr + 2..end] == s[ptr - working + 2..]
    modifies a
    ensures
      var n, t := ptr - working, s[ptr - working + 2..];
      var m := FirstUnescaped(t, {'}'}, 0);
      c == if m == |t| then Missing else Reference(s[..n], t[..m], n + m + 3)
    ensures forall k :: 0 <= k < ptr || end <= k < a.Length ==> a[k] == old(a[k])
    ensures c.Reference? ==> forall k :: working + c.resume <= k < a.Length ==> a[k] == old(a[k])
  {
    hide FirstUnescaped;
    var found, rptr := Bracket(a, ptr + 2, end);
    assert a[working..ptr] == s[..ptr - working];
    c := if found then Reference(a[working..ptr], a[ptr + 2..rptr], rptr + 1 - working) else Missing;
  }

  /** The closing bracket becomes a terminator. */
  method Bracket(a: array<char>, from: nat, ghost end: nat) returns (found: bool, at: nat)
    requires IsStr(a[..], from, end)
    modifies a
    ensures
      var t := old(a[from..end]);
      var m := FirstUnescaped(t, {'}'}, 0);
      && (found <==> m < |t|)
      && (found ==> at == from + m && a[from..at] == t[..m])
    ensures forall k :: 0 <= k < a.Length && !(found && k == at) ==> a[k] == old(a[k])
  {
    hide FirstUnescaped; hide Escaped;
    found, at := Strchr(a, from, end, '}');
    if found {
      a[at] := NUL;
    }
  }

  /** `nsh_argexpand`. */
  method ArgExpand(w: World, a: array<char>, start: nat, ghost end: nat) returns (arg: string, w': World)
    requires IsStr(a[..], start, end) && Clean(w)
    modifies a
    ensures arg == Expand(w, old(a[start..end])) && w' == Afterwards(w, old(a[start..end])) && Clean(w')
    ensures forall k :: 0 <= k < start || end <= k < a.Length ==> a[k] == old(a[k])
  {
    hide CutFirst; hide Raw; hide Dequoted; hide Value; hide Expanding; hide Clean;
    ghost var whole := a[start..end];
    ExpandingStart(w, a[..], start, end);
    var working, argument, grown := start, "", false;
    w' := w;
    while true
      invariant start <= working <= end && IsStr(a[..], working, end)
        && Expanding(w, w', a[..], whole, argument, working, end)
      invariant !grown ==> working == start && argument == "" && a[start..end] == whole
      invariant forall k :: 0 <= k < start || end <= k < a.Length ==> a[k] == old(a[k])
      decreases end - working
    {
      ghost var b := a[..];
      ExpandingEnd(w, w', b, whole, argument, working, end);
      var c := CutInPlace(a, working, end);
      match c
      case Whole =>
        if grown {
          var stop := Strlen(a, working, end);
          arg := DequoteCopy(argument + a[working..stop]);
        } else {
          assert "" + whole == whole;
          var stop := Dequote(a, start, end);
          arg := a[start..stop];
        }
        return;
      case Missing =>
        arg := "";
        return;
      case Command(before, inside, resume) =>
        Resume(w, w', b, a[..], whole, argument, working, end);
        argument := argument + (before + w'.Output(inside));
        working, grown, w' := working + resume, true, w'.Then(inside);
      case Reference(before, inside, resume) =>
        Resume(w, w', b, a[..], whole, argument, working, end);
        argument := argument + (before + Value(w', inside));
        working, grown := working + resume, true;
    }
  }

  lemma ExpandingStart(w: World, a: seq<char>, start: nat, end: nat)
    requires IsStr(a, start, end) && Clean(w)
    ensures Expanding(w, w, a, a[start..end], "", start, end)
  {
    hide CutFirst; hide Clean;
    assert Raw(w, a[start..end]).After("") == Raw(w, a[start..end]);
  }

  /** What the loop returns when nothing special is left, or a closing character is missing. */
  lemma ExpandingEnd(w: World, now: World, a: seq<char>, whole: string, argument: string, working: nat, end: nat)
    requires Expanding(w, now, a, whole, argument, working, end)
    ensures IsStr(a, working, end) && Clean(now)
    ensures CutFirst(a[working..end]).Whole? ==>
            NUL !in argument + a[working..end] && Expand(w, whole) == Dequoted(argument + a[working..end], false)
    ensures CutFirst(a[working..end]).Missing? ==> Expand(w, whole) == ""
    ensures CutFirst(a[working..end]).Whole? || CutFirst(a[working..end]).Missing? ==> Afterwards(w, whole) == now
  {
    hide CutFirst; hide Clean;
  }

  /** What a construct stands for, and the world behind it. */
  function Result(w: World, c: Cut): (r: (string, World))
    requires c.Command? || c.Reference?
  {
    if c.Command? then (w.Output(c.inside), w.Then(c.inside)) else (Value(w, c.inside), w)
  }

  /** The round keeps `Expanding`. */
  lemma Resume(
    w: World, now: World, b: seq<char>, a: seq<char>, whole: string, argument: string, working: nat, end: nat)
    requires |a| == |b| && Expanding(w, now, b, whole, argument, working, end)
    requires
      var c := CutFirst(b[working..end]);
      (c.Command? || c.Reference?) && forall k :: working + c.resume <= k < |a| ==> a[k] == b[k]
    ensures
      var c := CutFirst(b[working..end]);
      var (value, next) := Result(now, c);
      && IsStr(a, working + c.resume, end)
      && Expanding(w, next, a, whole, argument + (c.before + value), working + c.resume, end)
  {
    hide CutFirst; hide Value; hide Clean;
    var s := b[working..end];
    var c := CutFirst(s);
    var (value, next) := Result(now, c);
    assert a[working + c.resume..end] == s[c.resume..];
    AfterTwice(Raw(next, s[c.resume..]), argument, c.before + value);
    CutBefore(s);
    StaysClean(now, c);
  }

  lemma StaysClean(w: World, c: Cut)
    requires Clean(w) && (c.Command? || c.Reference?)
    ensures NUL !in Result(w, c).0 && Clean(Result(w, c).1)
  {
  }

  lemma CutBefore(s: string)
    requires NUL !in s
    ensures
      var c := CutFirst(s);
      c.Command? || c.Reference? ==> NUL !in c.before
  {
  }
}
