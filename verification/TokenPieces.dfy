/**
  Words put together from literals, `${name}` references, back-quoted commands and a `$name` at
  the end: the tokenizer takes such a word whole, and the argument is its expansion.
*/
module TokenPieces {
  import opened Escape
  import opened Expander
  import opened ExpansionLaws
  import opened Tokenizer

  /** The word does not end within the piece; blanks and quotation marks may stand in a back-quoted command. */
  predicate Readable(p: Piece, term: set<char>) {
    match p
    case Literal(t) => Closed(t, SPECIAL + term)
    case Variable(n) => Closed(n, {'}', '`'} + term)
    case Output(c) => Closed(c, {'`'})
  }

  /** Nothing, or a dollar sign and a name without brackets. */
  predicate Ending(e: string, term: set<char>) {
    e == "" || (e[0] == '$' && (|e| == 1 || e[1] != '{') && Closed(e, {'`'} + term))
  }

  /** The characters of pieces do not end words. */
  predicate PlainTerm(term: set<char>) {
    '$' !in term && '{' !in term && '}' !in term && '`' !in term && BACKSLASH !in term
  }

  lemma ClosedSubset(s: string, cs: set<char>, ds: set<char>)
    requires Closed(s, cs) && ds <= cs
    ensures Closed(s, ds)
  {
  }

  lemma ReadableWellFormed(p: Piece, term: set<char>)
    requires Readable(p, term)
    ensures WellFormed(p)
  {
    hide Closed;
    match p
    case Literal(t) => ClosedSubset(t, SPECIAL + term, SPECIAL);
    case Variable(n) => ClosedSubset(n, {'}', '`'} + term, {'}'});
    case Output(_) =>
  }

  /** The scan passes over text in which no word ends. */
  lemma {:induction false} ScanOver(s: string, rest: string, term: set<char>, back: bool, i: nat)
    requires i <= |s| && Closed(s, {'`'} + if back then {} else term)
    ensures Scan((s + rest)[i..], term, Escaped(s, i), back) == |s| - i + Scan(rest, term, false, back)
    decreases |s| - i
  {
    var u := s + rest;
    if i == |s| {
      assert u[i..] == rest;
    } else {
      assert u[i..][0] == s[i] && u[i..][1..] == u[i + 1..];
      ScanOver(s, rest, term, back, i + 1);
    }
  }

  lemma ScanClosed(s: string, rest: string, term: set<char>, back: bool)
    requires Closed(s, {'`'} + if back then {} else term)
    ensures Scan(s + rest, term, false, back) == |s| + Scan(rest, term, false, back)
  {
    ScanOver(s, rest, term, back, 0);
    assert (s + rest)[0..] == s + rest;
  }

  lemma ScanChar(c: char, rest: string, term: set<char>)
    requires c !in term && c != BACKSLASH && c != '`'
    ensures Scan([c] + rest, term, false, false) == 1 + Scan(rest, term, false, false)
  {
    assert ([c] + rest)[1..] == rest;
  }

  lemma ScanBackquote(rest: string, term: set<char>, back: bool)
    ensures Scan(['`'] + rest, term, false, back) == 1 + Scan(rest, term, false, !back)
  {
    assert (['`'] + rest)[1..] == rest;
  }

  lemma ScanVariable(n: string, rest: string, term: set<char>)
    requires Closed(n, {'`'} + term) && PlainTerm(term)
    ensures Scan("${" + n + "}" + rest, term, false, false) == |n| + 3 + Scan(rest, term, false, false)
  {
    hide Scan; hide Closed;
    var tail := ['}'] + rest;
    ScanChar('$', ['{'] + (n + tail), term);
    ScanChar('{', n + tail, term);
    ScanClosed(n, tail, term, false);
    ScanChar('}', rest, term);
    assert "${" + n + "}" + rest == ['$'] + (['{'] + (n + tail));
  }

  lemma ScanOutput(c: string, rest: string, term: set<char>)
    requires Closed(c, {'`'})
    ensures Scan("`" + c + "`" + rest, term, false, false) == |c| + 2 + Scan(rest, term, false, false)
  {
    hide Scan; hide Closed;
    var tail := ['`'] + rest;
    ScanBackquote(c + tail, term, false);
    assert {'`'} + {} == {'`'};
    ScanClosed(c, tail, term, true);
    ScanBackquote(rest, term, true);
    assert "`" + c + "`" + rest == ['`'] + (c + tail);
  }

  lemma ScanPiece(p: Piece, rest: string, term: set<char>)
    requires Readable(p, term) && PlainTerm(term)
    ensures Scan(Written(p) + rest, term, false, false) == |Written(p)| + Scan(rest, term, false, false)
  {
    hide Scan; hide Closed; hide PlainTerm;
    match p
    case Literal(t) =>
      ClosedSubset(t, SPECIAL + term, {'`'} + term);
      ScanClosed(t, rest, term, false);
    case Variable(n) =>
      ClosedSubset(n, {'}', '`'} + term, {'`'} + term);
      ScanVariable(n, rest, term);
    case Output(c) => ScanOutput(c, rest, term);
  }

  lemma {:induction false} ScanPieces(ps: seq<Piece>, rest: string, term: set<char>)
    requires (forall p :: p in ps ==> Readable(p, term)) && PlainTerm(term)
    ensures Scan(Write(ps) + rest, term, false, false) == |Write(ps)| + Scan(rest, term, false, false)
    decreases |ps|
  {
    hide Scan; hide Readable; hide Written; hide PlainTerm;
    if ps == [] {
      assert Write(ps) + rest == rest;
    } else {
      var tail := Write(ps[1..]) + rest;
      ScanPieces(ps[1..], rest, term);
      ScanPiece(ps[0], tail, term);
      assert Write(ps) + rest == Written(ps[0]) + tail;
    }
  }

  /** The whole word is scanned over. */
  lemma ScanWord(ps: seq<Piece>, ending: string, rest: string, term: set<char>)
    requires (forall p :: p in ps ==> Readable(p, term)) && PlainTerm(term) && Ending(ending, term)
    ensures
      var word := Write(ps) + ending;
      Scan(word + rest, term, false, false) == |word| + Scan(rest, term, false, false)
  {
    hide Scan; hide Readable; hide PlainTerm; hide Closed; hide Write;
    ScanPieces(ps, ending + rest, term);
    assert Write(ps) + (ending + rest) == (Write(ps) + ending) + rest;
    if ending == "" {
      assert ending + rest == rest;
    } else {
      ScanClosed(ending, rest, term, false);
    }
  }

  /** What the word stands for: its pieces replaced in order, the name at its end looked up last, without quoting. */
  function WordMeans(w: World, ps: seq<Piece>, ending: string): (s: string) {
    Dequoted(Replace(w, ps) + (if ending == "" then "" else Value(Last(w, ps), ending[1..])), false)
  }

  /** Without a name at the end these are the pieces one by one, if and only if no open escape clashes. */
  lemma MeansShown(w: World, ps: seq<Piece>)
    ensures WordMeans(w, ps, "") == Show(w, ps) <==> !Clash(w, ps)
  {
    hide Dequoted; hide Clash; hide Show; hide Replace;
    assert Replace(w, ps) + "" == Replace(w, ps);
    ClashShows(w, ps);
  }

  lemma ExpandWord(w: World, ps: seq<Piece>, ending: string, term: set<char>)
    requires (forall p :: p in ps ==> Readable(p, term)) && Ending(ending, term)
    ensures Expand(w, Write(ps) + ending) == WordMeans(w, ps, ending)
    ensures Afterwards(w, Write(ps) + ending) == Last(w, ps)
  {
    hide Raw; hide Value; hide Closed; hide Last; hide Replace; hide Readable; hide Dequoted; hide WellFormed;
    forall p | p in ps ensures WellFormed(p) {
      ReadableWellFormed(p, term);
    }
    RawOfPieces(w, ps, ending);
    RawEnding(Last(w, ps), ending);
  }

  lemma RawEnding(w: World, ending: string)
    requires ending == "" || (ending[0] == '$' && (|ending| == 1 || ending[1] != '{'))
    ensures Raw(w, ending) == Text(if ending == "" then "" else Value(w, ending[1..]), w)
  {
    hide Raw; hide Value;
    RawEmpty(w);
    if ending != "" {
      var name := ending[1..];
      FirstAtStart(ending, SPECIAL);
      RawReference(w, ending, ending[..0], name, |ending|);
      assert ending[|ending|..] == "" && ending[..0] + Value(w, name) == Value(w, name);
      assert Value(w, name) + "" == Value(w, name);
    }
  }

  /** A word that is not in double quotes, with a blank behind it or at the end of the line. */
  lemma LexPieces(w: World, ps: seq<Piece>, ending: string, rest: string)
    requires (forall p :: p in ps ==> Readable(p, SEPARATORS)) && Ending(ending, SEPARATORS)
    requires
      var word := Write(ps) + ending;
      word != "" && word[0] !in SEPARATORS + {'>', '#', '"'}
    requires rest == "" || rest[0] in {' ', '\t', '\n'}
    ensures
      var word := Write(ps) + ending;
      Lex(w, word + rest) ==
        Token(WordMeans(w, ps, ending), if rest == "" then |word| else |word| + 1, Last(w, ps))
  {
    hide Expand; hide Scan; hide Afterwards; hide Readable; hide Write; hide WordMeans; hide Last;
    var word := Write(ps) + ending;
    var s := word + rest;
    assert s[0] == word[0] && s[0..] == s && s[0..|word|] == word;
    assert SkipSeparators(s) == 0;
    ScanWord(ps, ending, rest, SEPARATORS);
    ScanBlank(rest);
    ExpandWord(w, ps, ending, SEPARATORS);
  }

  lemma ScanBlank(rest: string)
    requires rest == "" || rest[0] in {' ', '\t', '\n'}
    ensures Scan(rest, SEPARATORS, false, false) == 0
  {
  }

  lemma ScanQuotation(rest: string)
    requires rest == "" || rest[0] == '"'
    ensures Scan(rest, QUOTES, false, false) == 0
  {
  }

  /** A word in double quotes, blanks and all; the second of them may be missing at the end of the line. */
  lemma LexQuotedPieces(w: World, ps: seq<Piece>, ending: string, rest: string)
    requires (forall p :: p in ps ==> Readable(p, QUOTES)) && Ending(ending, QUOTES)
    requires rest == "" || rest[0] == '"'
    ensures
      var word := Write(ps) + ending;
      Lex(w, ['"'] + word + rest) ==
        Token(WordMeans(w, ps, ending), if rest == "" then |word| + 1 else |word| + 2, Last(w, ps))
  {
    hide Expand; hide Scan; hide Afterwards; hide Readable; hide Write; hide WordMeans; hide Last;
    var word := Write(ps) + ending;
    var s := ['"'] + word + rest;
    assert s[0] == '"' && s[1..] == word + rest && s[1..1 + |word|] == word;
    assert SkipSeparators(s) == 0;
    ScanWord(ps, ending, rest, QUOTES);
    ScanQuotation(rest);
    ExpandWord(w, ps, ending, QUOTES);
  }
}
