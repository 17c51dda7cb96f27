/**
  Printing arguments with backslashes and reading them back.
*/
module TokenRoundTrip {
  import opened Escape
  import opened Expander
  import opened ExpansionLaws
  import opened Tokenizer
  import opened TokenPieces

  /** The characters that mean something to the tokenizer or to expansion. */
  predicate NeedsQuoting(c: char) {
    c in SEPARATORS || c in QUOTES || c in SPECIAL || c in {BACKSLASH, '>', '#'}
  }

  function QuoteChar(c: char): (s: string) {
    if NeedsQuoting(c) then [BACKSLASH, c] else [c]
  }

  function Quote(x: string): (s: string)
    ensures |s| >= |x|
  {
    if x == [] then [] else QuoteChar(x[0]) + Quote(x[1..])
  }

  /** The arguments, quoted and separated by blanks. */
  function Print(args: seq<string>): (s: string) {
    if args == [] then ""
    else if |args| == 1 then Quote(args[0])
    else Quote(args[0]) + ([' '] + Print(args[1..]))
  }

  lemma {:induction false} ScanQuoted(x: string, rest: string, term: set<char>)
    requires forall c :: c in term ==> NeedsQuoting(c)
    ensures Scan(Quote(x) + rest, term, false, false) == |Quote(x)| + Scan(rest, term, false, false)
  {
    if x == [] {
      assert Quote(x) + rest == rest;
    } else {
      var tail := Quote(x[1..]) + rest;
      ScanQuoted(x[1..], rest, term);
      assert Quote(x) + rest == QuoteChar(x[0]) + tail;
      if NeedsQuoting(x[0]) {
        assert (QuoteChar(x[0]) + tail)[1..] == [x[0]] + tail;
        assert ([x[0]] + tail)[1..] == tail;
      } else {
        assert (QuoteChar(x[0]) + tail)[1..] == tail;
      }
    }
  }

  lemma QuotedCharClosed(c: char)
    ensures Closed(QuoteChar(c), SPECIAL)
    ensures Dequoted(QuoteChar(c), false) == [c]
  {
    if NeedsQuoting(c) {
      var s := [BACKSLASH, c];
      assert s[1..] == [c] && [c][1..] == [];
      assert !Escaped(s, 0) && Escaped(s, 1) && !Escaped(s, 2);
    } else {
      assert [c][1..] == [];
      assert !Escaped([c], 0) && !Escaped([c], 1);
    }
  }

  /** Quoting hides every special character, and dequoting undoes it. */
  lemma {:induction false} QuotedClosed(x: string)
    ensures Closed(Quote(x), SPECIAL) && Dequoted(Quote(x), false) == x
  {
    if x != [] {
      var c, rest := QuoteChar(x[0]), Quote(x[1..]);
      QuotedClosed(x[1..]);
      QuotedCharClosed(x[0]);
      FirstAfterClosed(c, rest, SPECIAL);
      EscapedSuffix(c, rest, |rest|);
      DequotedConcat(c, rest);
      assert [x[0]] + x[1..] == x;
    }
  }

  lemma ExpandQuoted(w: World, x: string)
    ensures Expand(w, Quote(x)) == x && Afterwards(w, Quote(x)) == w
  {
    hide FirstUnescaped; hide Escaped;
    QuotedClosed(x);
    assert CutFirst(Quote(x)) == Whole;
  }

  lemma LexQuoted(w: World, x: string, rest: string)
    requires x != [] && (rest == [] || rest[0] in {' ', '\t', '\n'})
    ensures Lex(w, Quote(x) + rest) == Token(x, if rest == [] then |Quote(x)| else |Quote(x)| + 1, w)
  {
    hide Expand; hide Scan; hide Afterwards;
    var s := Quote(x) + rest;
    assert s[0] == QuoteChar(x[0])[0];
    assert SkipSeparators(s) == 0;
    ScanQuoted(x, rest, SEPARATORS);
    ScanBlank(rest);
    assert s[0..] == s && s[0..|Quote(x)|] == Quote(x);
    ExpandQuoted(w, x);
  }

  /** The first `limit` arguments. */
  function UpTo(args: seq<string>, limit: nat): (r: seq<string>) {
    if |args| <= limit then args else args[..limit]
  }

  lemma UpToCons(args: seq<string>, limit: nat)
    requires args != [] && limit > 0
    ensures UpTo(args, limit) == [args[0]] + UpTo(args[1..], limit - 1)
  {
  }

  /**
    Round trip.  Any list of non-empty arguments, quoted and joined with blanks, is read back
    as exactly that list, up to the limit, whatever the variables and commands are, and no
    command is run.
  */
  lemma {:induction false} PrintedIsReadBack(w: World, args: seq<string>, limit: nat)
    requires forall i :: 0 <= i < |args| ==> args[i] != []
    ensures Tokens(w, Print(args), limit) == (UpTo(args, limit), w)
    decreases |args|
  {
    hide Lex; hide Quote; hide UpTo;
    if args == [] || limit == 0 {
      LexNothing(w);
      assert UpTo(args, limit) == [] by { NoneUpTo(args, limit); }
    } else {
      var x, rest := args[0], if |args| == 1 then "" else [' '] + Print(args[1..]);
      assert Print(args) == Quote(x) + rest;
      LexQuoted(w, x, rest);
      PrintedIsReadBack(w, args[1..], limit - 1);
      UpToCons(args, limit);
      if |args| == 1 {
        assert Print(args)[|Quote(x)|..] == Print(args[1..]);
      } else {
        assert Print(args)[|Quote(x)| + 1..] == Print(args[1..]);
      }
    }
  }

  lemma NoneUpTo(args: seq<string>, limit: nat)
    requires args == [] || limit == 0
    ensures UpTo(args, limit) == []
  {
  }

  lemma LexNothing(w: World)
    ensures Lex(w, "") == End
  {
  }

  /**
    What a line can hold: an escaped word, an escaped string in double quotes, the two
    redirections, and a word with references and commands, in double quotes or not.
  */
  datatype Item =
    | Plain(text: string)
    | InQuotes(text: string)
    | ToFile
    | AppendTo
    | Word(quoted: bool, pieces: seq<Piece>, ending: string)

  /** The text of a word without its quotation marks. */
  function Inside(x: Item): (s: string)
    requires x.Word?
  {
    Write(x.pieces) + x.ending
  }

  function Terminators(x: Item): (term: set<char>)
    requires x.Word?
  {
    if x.quoted then QUOTES else SEPARATORS
  }

  /** The item can be read back as one argument. */
  predicate GoodItem(x: Item) {
    match x
    case Plain(t) => t != []
    case Word(quoted, ps, e) =>
      && (forall p :: p in ps ==> Readable(p, Terminators(x))) && Ending(e, Terminators(x))
      && (!quoted ==> Inside(x) != "" && Inside(x)[0] !in SEPARATORS + {'>', '#', '"'})
    case _ => true
  }

  function Written(x: Item): (s: string) {
    match x
    case Plain(t) => Quote(t)
    case InQuotes(t) => ['"'] + (Quote(t) + ['"'])
    case ToFile => ">"
    case AppendTo => ">>"
    case Word(quoted, _, _) => if quoted then ['"'] + (Inside(x) + ['"']) else Inside(x)
  }

  /** The argument that an item stands for. */
  function Meant(w: World, x: Item): (s: string) {
    match x
    case Plain(t) => t
    case InQuotes(t) => t
    case ToFile => ">"
    case AppendTo => ">>"
    case Word(_, ps, e) => WordMeans(w, ps, e)
  }

  /** The world behind an item. */
  function Behind(w: World, x: Item): (w': World) {
    if x.Word? then Last(w, x.pieces) else w
  }

  /** The item ends only at a blank, which is used up with it. */
  predicate TakesBlank(x: Item) {
    x.Plain? || (x.Word? && !x.quoted)
  }

  /** A line of items, each with a gap behind it, and a comment or nothing at its end. */
  function Line(items: seq<Item>, gaps: seq<string>, comment: string): (s: string)
    requires |items| == |gaps|
  {
    if items == [] then comment else Written(items[0]) + (gaps[0] + Line(items[1..], gaps[1..], comment))
  }

  predicate Blanks(gap: string) {
    forall i :: 0 <= i < |gap| ==> gap[i] in {' ', '\t', '\n'}
  }

  /** The gap may be missing at the end of the line and behind an item that ends by itself. */
  predicate Separates(x: Item, gap: string, rest: string) {
    Blanks(gap) && (gap != "" || rest == "" || (!TakesBlank(x) && (x.ToFile? ==> rest[0] != '>')))
  }

  predicate Separated(items: seq<Item>, gaps: seq<string>, comment: string)
    requires |items| == |gaps|
  {
    items != [] ==>
      && Separates(items[0], gaps[0], Line(items[1..], gaps[1..], comment))
      && Separated(items[1..], gaps[1..], comment)
  }

  /** The first `limit` items, each in the world that the ones before it leave, and the world behind them. */
  function Read(w: World, items: seq<Item>, limit: nat): (r: (seq<string>, World))
    decreases |items|
  {
    if items == [] || limit == 0 then ([], w)
    else
      var (args, last) := Read(Behind(w, items[0]), items[1..], limit - 1);
      ([Meant(w, items[0])] + args, last)
  }

  lemma SkipOneMore(blank: char, s: string)
    requires blank in {' ', '\t', '\n'}
    ensures SkipSeparators([blank] + s) == 1 + SkipSeparators(s)
  {
    assert ([blank] + s)[1..] == s;
  }

  lemma LexWordShift(w: World, blank: char, s: string, b: nat, term: set<char>)
    requires b <= |s| && (b == 0 ==> s != [] && s[0] !in term)
    ensures
      var r := LexWord(w, s, b, term);
      LexWord(w, [blank] + s, b + 1, term) == Token(r.arg, r.resume + 1, r.world)
  {
    hide Expand; hide Scan; hide Afterwards;
    var t, n := [blank] + s, Scan(s[b..], term, false, false);
    assert t[b + 1..] == s[b..] && t[b + 1..b + 1 + n] == s[b..b + n];
  }

  lemma LexSkipsBlank(w: World, blank: char, s: string)
    requires blank in {' ', '\t', '\n'}
    ensures
      var r := Lex(w, s);
      Lex(w, [blank] + s) == if r.Token? then Token(r.arg, r.resume + 1, r.world) else End
  {
    hide LexWord; hide SkipSeparators;
    var t, b := [blank] + s, SkipSeparators(s);
    SkipOneMore(blank, s);
    if b < |s| {
      var c := s[b];
      assert t[b + 1] == c;
      if c == '"' {
        LexWordShift(w, blank, s, b + 1, QUOTES);
      } else if c != '>' && c != '#' {
        LexWordShift(w, blank, s, b, SEPARATORS);
      }
    }
  }

  /** A blank in front of a line does not matter. */
  lemma TokensSkipBlank(w: World, blank: char, s: string, limit: nat)
    requires blank in {' ', '\t', '\n'}
    ensures Tokens(w, [blank] + s, limit) == Tokens(w, s, limit)
  {
    hide Lex;
    LexSkipsBlank(w, blank, s);
    var r := Lex(w, s);
    if r.Token? {
      assert ([blank] + s)[r.resume + 1..] == s[r.resume..];
    }
  }

  lemma {:induction false} TokensSkipGap(w: World, gap: string, s: string, limit: nat)
    requires Blanks(gap)
    ensures Tokens(w, gap + s, limit) == Tokens(w, s, limit)
    decreases |gap|
  {
    hide Tokens;
    if gap == "" {
      assert gap + s == s;
    } else {
      TokensSkipGap(w, gap[1..], s, limit);
      TokensSkipBlank(w, gap[0], gap[1..] + s, limit);
      assert gap + s == [gap[0]] + (gap[1..] + s);
    }
  }

  lemma LexAtQuote(w: World, s: string)
    requires s != [] && s[0] == '"'
    ensures Lex(w, s) == LexWord(w, s, 1, QUOTES)
  {
    hide LexWord;
  }

  lemma LexInQuotes(w: World, x: string, rest: string)
    ensures Lex(w, Written(InQuotes(x)) + rest) == Token(x, |Quote(x)| + 2, w)
  {
    hide Expand; hide Scan; hide Quote; hide Lex; hide Afterwards;
    var q, s := Quote(x), Written(InQuotes(x)) + rest;
    assert s == ['"'] + q + (['"'] + rest);
    LexAtQuote(w, s);
    BetweenQuotes(s, q, rest);
    ScanQuoted(x, ['"'] + rest, QUOTES);
    ScanQuotation(['"'] + rest);
    ExpandQuoted(w, x);
  }

  lemma BetweenQuotes(s: string, q: string, rest: string)
    requires s == ['"'] + q + (['"'] + rest)
    ensures s[1..] == q + (['"'] + rest) && s[1..1 + |q|] == q && |s| == |q| + 2 + |rest|
  {
  }

  lemma LexRedirection(w: World, rest: string)
    ensures rest == "" || rest[0] != '>' ==> Lex(w, ">" + rest) == Token(">", 1, w)
    ensures Lex(w, ">>" + rest) == Token(">>", 2, w)
  {
  }

  lemma NoFurther(w: World, comment: string, limit: nat)
    requires comment == [] || comment[0] == '#'
    ensures Tokens(w, comment, limit) == ([], w)
  {
  }

  /**
    Whole lines: escaped words, strings in double quotes (empty ones too), redirections, words
    with references and commands, and a comment are read as exactly the arguments meant, up to
    the limit, each in the world that the commands before it leave.
  */
  lemma {:induction false} LineIsReadBack(w: World, items: seq<Item>, gaps: seq<string>, comment: string, limit: nat)
    requires |items| == |gaps| && forall i :: 0 <= i < |items| ==> GoodItem(items[i])
    requires Separated(items, gaps, comment) && (comment == [] || comment[0] == '#')
    ensures Tokens(w, Line(items, gaps, comment), limit) == Read(w, items, limit)
    decreases |items|
  {
    hide Lex; hide Quote; hide Tokens; hide Written; hide Meant; hide GoodItem; hide Behind; hide Separates;
    if items == [] || limit == 0 {
      NoFurther(w, comment, limit);
      TokensStep(w, Line(items, gaps, comment), 0);
    } else {
      var x, tail := items[0], Line(items[1..], gaps[1..], comment);
      LineIsReadBack(Behind(w, x), items[1..], gaps[1..], comment, limit - 1);
      FirstItem(w, x, gaps[0], tail, limit);
    }
  }

  lemma FirstItem(w: World, x: Item, gap: string, tail: string, limit: nat)
    requires GoodItem(x) && Separates(x, gap, tail) && limit > 0
    ensures
      var (args, last) := Tokens(Behind(w, x), tail, limit - 1);
      Tokens(w, Written(x) + (gap + tail), limit) == ([Meant(w, x)] + args, last)
  {
    hide Lex; hide Quote; hide Tokens; hide Written; hide Meant; hide GoodItem; hide Behind;
    var s, p := Written(x) + (gap + tail), Written(x);
    LexItem(w, x, gap + tail);
    TokensStep(w, s, limit);
    if TakesBlank(x) && gap != "" {
      assert s[|p| + 1..] == gap[1..] + tail;
      TokensSkipGap(Behind(w, x), gap[1..], tail, limit - 1);
    } else {
      assert s[|p|..] == gap + tail;
      TokensSkipGap(Behind(w, x), gap, tail, limit - 1);
    }
  }

  lemma LexItem(w: World, x: Item, rest: string)
    requires GoodItem(x)
    requires TakesBlank(x) ==> rest == "" || rest[0] in {' ', '\t', '\n'}
    requires x.ToFile? ==> rest == "" || rest[0] != '>'
    ensures Lex(w, Written(x) + rest)
         == Token(Meant(w, x), if TakesBlank(x) && rest != "" then |Written(x)| + 1 else |Written(x)|, Behind(w, x))
  {
    hide Lex; hide Quote; hide WordMeans; hide Last; hide Write; hide Readable; hide Ending;
    match x
    case Plain(t) => LexQuoted(w, t, rest);
    case InQuotes(t) => LexInQuotes(w, t, rest);
    case ToFile => LexRedirection(w, rest);
    case AppendTo => LexRedirection(w, rest);
    case Word(quoted, ps, e) =>
      if quoted {
        LexQuotedPieces(w, ps, e, ['"'] + rest);
        assert ['"'] + (Inside(x) + ['"']) + rest == ['"'] + Inside(x) + (['"'] + rest);
      } else {
        LexPieces(w, ps, e, rest);
      }
  }
}
