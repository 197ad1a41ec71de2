/**
  A pattern from its text to its tree: the lexer of regexmachina/parser.py
  followed by its parser, with what the two together guarantee.
*/
module RegexPattern {
  import opened Wrappers
  import opened RegexLexer
  import opened RegexSyntax
  import opened RegexParser
  import opened RegexParserProofs

  datatype PatternError = LexFailure(lex: LexError) | SyntaxFailure(syntax: ParseError)

  function Syntax(r: Result<Expression, ParseError>): (p: Result<Expression, PatternError>)
  {
    match r
    case Ok(e) => Ok(e)
    case Err(e) => Err(SyntaxFailure(e))
  }

  /** Lexes with the given METACHARACTER class, then parses. A lexical
      error names the first character that no rule can start, and there is
      none exactly when every character can start a token; a tree that
      comes out is well formed. */
  function ParsePatternWith(meta: set<char>, s: string): (r: Result<Expression, PatternError>)
    ensures r.Err? && r.error.LexFailure? ==>
      && r.error.lex.index < |s|
      && r.error.lex.character == s[r.error.lex.index]
      && !CanStartToken(meta, s[r.error.lex.index])
      && forall k :: 0 <= k < r.error.lex.index ==> CanStartToken(meta, s[k])
    ensures !(r.Err? && r.error.LexFailure?) ==> forall k :: 0 <= k < |s| ==> CanStartToken(meta, s[k])
    ensures r.Ok? ==> WellFormed(r.value)
  {
    match LexFrom(meta, s, 0)
    case Err(e) => Err(LexFailure(e))
    case Ok(ts) =>
      TiledCharsCanStart(meta, s, ts, 0);
      ParseSpells(ts);
      Syntax(Parse(ts))
  }

  /** The pipeline of this model: a parsed pattern has one term more than
      its text has `|` characters. */
  function ParsePattern(s: string): (r: Result<Expression, PatternError>)
    ensures r.Ok? ==> |r.value.alternatives| == 1 + Occurrences('|', s)
  {
    PipeIsStructural();
    PatternAlternatives(Metacharacters, s);
    ParsePatternWith(Metacharacters, s)
  }

  /** The pipeline with the METACHARACTER class exactly as written: no
      pattern parses to a repetition with a maximum. */
  function ParsePatternAsWritten(s: string): (r: Result<Expression, PatternError>)
    ensures r.Ok? ==> NoBoundedRepetition(r.value)
  {
    BoundedRepetitionUnreachable(MetacharactersAsWritten, s);
    ParsePatternWith(MetacharactersAsWritten, s)
  }

  /** A tree `Parse` builds is well formed and spells its tokens, up to the
      optional comma of `{ INTEGER , }`. */
  lemma ParseSpells(ts: seq<Token>)
    ensures Parse(ts).Ok? ==>
      && WellFormed(Parse(ts).value)
      && Render(Parse(ts).value) == Canonical(Lexemes(ts))
  {
    if Parse(ts).Ok? {
      RenderParse(Lexemes(ts), Parse(ts).value);
    }
  }

  /** `Parse` accepts every spelling of a well-formed tree, with or without
      the optional comma of each open repetition, as that tree. */
  lemma ParseAcceptsSpelling(ts: seq<Token>, e: Expression)
    requires WellFormed(e) && Canonical(Lexemes(ts)) == Render(e)
    ensures Parse(ts) == Ok(e)
  {
    ParseSpelling(Lexemes(ts), e);
  }

  /** The tokens `Parse` accepts as a tree are exactly the spellings of that
      tree, which must be well formed. */
  lemma ParseAcceptsExactly(ts: seq<Token>, e: Expression)
    ensures Parse(ts) == Ok(e) <==> WellFormed(e) && Canonical(Lexemes(ts)) == Render(e)
  {
    ParseSpells(ts);
    if WellFormed(e) && Canonical(Lexemes(ts)) == Render(e) {
      ParseAcceptsSpelling(ts, e);
    }
  }

  lemma TilesCons(meta: set<char>, s: string, t: Token, ts: seq<Token>, from: nat)
    requires t.index == from && Recognizes(meta, s, t) && Tiles(meta, s, ts, t.end)
    ensures Tiles(meta, s, [t] + ts, from)
  {
    assert ([t] + ts)[1..] == ts;
  }

  /** A tiling of the text whose lexemes spell a well-formed tree parses to
      that tree. */
  lemma ParsesTo(meta: set<char>, s: string, ts: seq<Token>, e: Expression)
    requires Tiles(meta, s, ts, 0) && WellFormed(e) && Lexemes(ts) == Render(e)
    ensures ParsePatternWith(meta, s) == Ok(e)
  {
    LexComplete(meta, s, ts, 0);
    ParseRender(e);
  }

  /** The pipeline on a text that the tokens `ts` tile. */
  lemma LexedAs(meta: set<char>, s: string, ts: seq<Token>)
    requires Tiles(meta, s, ts, 0)
    ensures ParsePatternWith(meta, s) == Syntax(Parse(ts))
  {
    LexComplete(meta, s, ts, 0);
  }

  /** A parse that stops short of the end reports where, and what could
      have continued the expression there; `Parse` itself guarantees that the
      token reported is the one at that offset. */
  lemma ParseLeftover(ts: seq<Token>, e: Expression, rest: seq<Lexeme>)
    requires ParseExpression(Lexemes(ts)) == Ok((e, rest)) && rest != []
    ensures Parse(ts).Err?
    ensures Parse(ts).error.offset == |ts| - |rest|
    ensures Parse(ts).error.expected == ExpectedAfter(e)
  {
  }

  /** A parse that gets stuck reports where, and what it expected there. */
  lemma ParseStuckAt(ts: seq<Token>, s: Stuck)
    requires ParseExpression(Lexemes(ts)) == Err(s)
    ensures Parse(ts).Err?
    ensures Parse(ts).error.offset == |ts| - |s.rest|
    ensures Parse(ts).error.expected == s.expected
  {
  }

  // ---------------------------------------------------------------------
  // Examples.
  // ---------------------------------------------------------------------

  function Single(a: Atom, q: Option<char>): (e: Expression)
  {
    Expression([Term([Factor(a, q)])])
  }

  lemma ExampleStarQuestionIsTwoTokens()
    ensures Lex("*?") == Ok([Token(Metacharacter('*'), 0, 1), Token(Metacharacter('?'), 1, 2)])
  {
    var s := "*?";
    var t0, t1 := Token(Metacharacter('*'), 0, 1), Token(Metacharacter('?'), 1, 2);
    TilesCons(Metacharacters, s, t1, [], 1);
    TilesCons(Metacharacters, s, t0, [t1], 0);
    LexComplete(Metacharacters, s, [t0, t1], 0);
  }

  lemma ExampleAtSignIsLexError()
    ensures ParsePattern("@") == Err(LexFailure(LexError(0, '@')))
  {
    assert NextToken(Metacharacters, "@", 0).None?;
  }

  lemma ExampleProperty()
    ensures ParsePattern("ab") == Ok(Single(PropertyAtom("ab"), None))
  {
    var s := "ab";
    var t0 := Token(Property("ab"), 0, 2);
    assert s[0..2] == "ab";
    TilesCons(Metacharacters, s, t0, [], 0);
    var e := Single(PropertyAtom("ab"), None);
    assert Render(e) == [Property("ab")];
    ParsesTo(Metacharacters, s, [t0], e);
  }

  function AlternationTokens(): (ts: seq<Token>)
  {
    [Token(Property("a"), 0, 1), Token(Pipe, 1, 2), Token(Property("b"), 2, 3),
     Token(Pipe, 3, 4), Token(Property("c"), 4, 5)]
  }

  function Alternation(): (e: Expression)
  {
    Expression([
      Term([Factor(PropertyAtom("a"), None)]),
      Term([Factor(PropertyAtom("b"), None)]),
      Term([Factor(PropertyAtom("c"), None)])])
  }

  lemma AlternationTiles()
    ensures Tiles(Metacharacters, "a|b|c", AlternationTokens(), 0)
  {
    var s := "a|b|c";
    var ts := AlternationTokens();
    assert [ts[0], ts[1], ts[2], ts[3], ts[4]] == ts;
    assert s[0..1] == "a" && s[2..3] == "b" && s[4..5] == "c";
    TilesCons(Metacharacters, s, ts[4], [], 4);
    TilesCons(Metacharacters, s, ts[3], [ts[4]], 3);
    TilesCons(Metacharacters, s, ts[2], [ts[3], ts[4]], 2);
    TilesCons(Metacharacters, s, ts[1], [ts[2], ts[3], ts[4]], 1);
    TilesCons(Metacharacters, s, ts[0], [ts[1], ts[2], ts[3], ts[4]], 0);
  }

  lemma AlternationSpelling()
    ensures WellFormed(Alternation())
    ensures Lexemes(AlternationTokens()) == Render(Alternation())
  {
    var e := Alternation();
    var ta, tb, tc := e.alternatives[0], e.alternatives[1], e.alternatives[2];
    assert RenderTerm(ta) == [Property("a")] && RenderTerm(tb) == [Property("b")] && RenderTerm(tc) == [Property("c")];
    assert RenderAlternatives([tc]) == [Pipe, Property("c")];
    assert [tb, tc][1..] == [tc];
    assert RenderAlternatives([tb, tc]) == [Pipe, Property("b"), Pipe, Property("c")];
    assert e.alternatives[1..] == [tb, tc];
    assert Render(e) == [Property("a"), Pipe, Property("b"), Pipe, Property("c")];
  }

  lemma ExampleAlternation()
    ensures ParsePattern("a|b|c") == Ok(Expression([
      Term([Factor(PropertyAtom("a"), None)]),
      Term([Factor(PropertyAtom("b"), None)]),
      Term([Factor(PropertyAtom("c"), None)])]))
  {
    AlternationTiles();
    AlternationSpelling();
    ParsesTo(Metacharacters, "a|b|c", AlternationTokens(), Alternation());
  }

  lemma ExampleQuantifier()
    ensures ParsePattern("a*") == Ok(Single(PropertyAtom("a"), Some('*')))
  {
    var s := "a*";
    var t0, t1 := Token(Property("a"), 0, 1), Token(Metacharacter('*'), 1, 2);
    assert s[0..1] == "a";
    TilesCons(Metacharacters, s, t1, [], 1);
    TilesCons(Metacharacters, s, t0, [t1], 0);
    var e := Single(PropertyAtom("a"), Some('*'));
    assert Render(e) == [Property("a"), Metacharacter('*')];
    ParsesTo(Metacharacters, s, [t0, t1], e);
  }

  function LazyTokens(): (ts: seq<Token>)
  {
    [Token(Property("a"), 0, 1), Token(Metacharacter('*'), 1, 2), Token(Metacharacter('?'), 2, 3)]
  }

  lemma LazyTiles()
    ensures Tiles(Metacharacters, "a*?", LazyTokens(), 0)
  {
    var s := "a*?";
    var ts := LazyTokens();
    assert [ts[0], ts[1], ts[2]] == ts;
    assert s[0..1] == "a";
    TilesCons(Metacharacters, s, ts[2], [], 2);
    TilesCons(Metacharacters, s, ts[1], [ts[2]], 1);
    TilesCons(Metacharacters, s, ts[0], [ts[1], ts[2]], 0);
  }

  /** `a*` is a whole expression, and the second METACHARACTER is left over. */
  lemma QuantifiedThenMetacharacter(name: string, q: char, q2: char)
    ensures var ls := [Property(name), Metacharacter(q), Metacharacter(q2)];
      ParseExpression(ls) == Ok((Single(PropertyAtom(name), Some(q)), [Metacharacter(q2)]))
  {
    var ls := [Property(name), Metacharacter(q), Metacharacter(q2)];
    var f := Factor(PropertyAtom(name), Some(q));
    var rest := [Metacharacter(q2)];
    assert ParseFactor(ls) == Ok((f, rest)) by {
      assert ParseAtom(ls) == Ok((PropertyAtom(name), ls[1..]));
      assert ls[1..][1..] == rest;
    }
    LoneFactorIsExpression(ls, f, rest);
  }

  /** A factor followed by a lexeme that can neither continue the term nor
      start another alternative is the whole expression. */
  lemma LoneFactorIsExpression(ls: seq<Lexeme>, f: Factor, rest: seq<Lexeme>)
    requires ParseFactor(ls) == Ok((f, rest))
    requires rest != [] && rest[0].Metacharacter?
    ensures ParseExpression(ls) == Ok((Single(f.atom, f.quantifier), rest))
  {
    assert ParseFactors(rest) == Ok(([], rest));
    TermStep(ls, f, rest, [], rest);
    assert [f] + [] == [f];
    assert ParseAlternatives(rest) == Ok(([], rest));
    ExpressionStep(ls, Term([f]), rest, [], rest);
    assert [Term([f])] + [] == [Term([f])];
  }

  lemma LazyLexemes()
    ensures Lexemes(LazyTokens()) == [Property("a"), Metacharacter('*'), Metacharacter('?')]
  {
  }

  /** After a quantified factor only `|` or a new atom may follow. */
  lemma ExpectedAfterQuantified(e: Expression)
    requires !EndsUnquantified(e)
    ensures ExpectedAfter(e) == {"|", "PROPERTY", "[", "{"}
  {
  }

  lemma LazyParse()
    ensures Parse(LazyTokens()) == Err(ParseError(2, Some(Token(Metacharacter('?'), 2, 3)),
      {"|", "PROPERTY", "[", "{"}))
  {
    var ts := LazyTokens();
    var e := Single(PropertyAtom("a"), Some('*'));
    var rest := [Metacharacter('?')];
    assert ParseExpression(Lexemes(ts)) == Ok((e, rest)) by {
      LazyLexemes();
      QuantifiedThenMetacharacter("a", '*', '?');
    }
    ParseLeftover(ts, e, rest);
    ExpectedAfterQuantified(e);
  }

  lemma ExampleLazyQuantifierRejected()
    ensures ParsePattern("a*?") == Err(SyntaxFailure(ParseError(2, Some(Token(Metacharacter('?'), 2, 3)),
      {"|", "PROPERTY", "[", "{"})))
  {
    assert ParsePattern("a*?") == Syntax(Parse(LazyTokens())) by {
      LazyTiles();
      LexedAs(Metacharacters, "a*?", LazyTokens());
    }
    LazyParse();
  }

  function RepetitionTokens(): (ts: seq<Token>)
  {
    [Token(LBrace, 0, 1), Token(Integer(2), 1, 2), Token(RBrace, 2, 3)]
  }

  lemma RepetitionTiles()
    ensures Tiles(Metacharacters, "{2}", RepetitionTokens(), 0)
  {
    var s := "{2}";
    var ts := RepetitionTokens();
    assert [ts[0], ts[1], ts[2]] == ts;
    assert s[1..2] == "2" && DecimalValue("2") == 2;
    TilesCons(Metacharacters, s, ts[2], [], 2);
    TilesCons(Metacharacters, s, ts[1], [ts[2]], 1);
    TilesCons(Metacharacters, s, ts[0], [ts[1], ts[2]], 0);
  }

  lemma RepetitionLexemes()
    ensures Lexemes(RepetitionTokens()) == [LBrace, Integer(2), RBrace]
  {
  }

  lemma ExampleRepetition()
    ensures ParsePattern("{2}") == Ok(Single(Repetition(2, None), None))
  {
    var e := Single(Repetition(2, None), None);
    RepetitionTiles();
    RepetitionLexemes();
    assert Render(e) == [LBrace, Integer(2), RBrace];
    ParsesTo(Metacharacters, "{2}", RepetitionTokens(), e);
  }

  /** `{ n , }` parses like `{ n }`. */
  lemma OpenRepetitionParses(n: nat)
    ensures ParseExpression([LBrace, Integer(n), Comma, RBrace]) == Ok((Single(Repetition(n, None), None), []))
  {
    var ls := [LBrace, Integer(n), Comma, RBrace];
    var f := Factor(Repetition(n, None), None);
    assert ParseRepetition(ls[1..]) == Ok((Repetition(n, None), [])) by {
      var l1 := [Integer(n), Comma, RBrace];
      assert ls[1..] == l1 && l1[1..] == [Comma, RBrace] && l1[1..][1..] == [RBrace];
    }
    assert ParseFactor(ls) == Ok((f, []));
    assert ParseFactors([]) == Ok(([], []));
    TermStep(ls, f, [], [], []);
    assert [f] + [] == [f];
    assert ParseAlternatives([]) == Ok(([], []));
    ExpressionStep(ls, Term([f]), [], [], []);
    assert [Term([f])] + [] == [Term([f])];
  }

  /** `{ n , m` without its closing brace is stuck at the end, expecting `}`. */
  lemma UnclosedRepetitionStuck(n: nat, m: nat)
    ensures ParseExpression([LBrace, Integer(n), Comma, Integer(m)]) == Err(Stuck([], {"}"}))
  {
    var ls := [LBrace, Integer(n), Comma, Integer(m)];
    assert ParseAtom(ls) == Err(Stuck([], {"}"})) by {
      BraceAtom(ls);
      assert ls[1..] == [Integer(n), Comma, Integer(m)];
      UnclosedBoundStuck(n, m);
    }
    assert ParseFactor(ls) == Err(Stuck([], {"}"}));
    assert ParseTerm(ls) == Err(Stuck([], {"}"}));
  }

  lemma UnclosedBoundStuck(n: nat, m: nat)
    ensures ParseRepetition([Integer(n), Comma, Integer(m)]) == Err(Stuck([], {"}"}))
  {
    var l1 := [Integer(n), Comma, Integer(m)];
    assert l1[1..] == [Comma, Integer(m)] && l1[1..][1..] == [Integer(m)];
    assert l1[1..][1..][1..] == [];
  }

  /** The tokens of `{2,` followed by `last`, which stands at offset 3. */
  function BraceTokens(last: Lexeme): (ts: seq<Token>)
  {
    [Token(LBrace, 0, 1), Token(Integer(2), 1, 2), Token(Comma, 2, 3), Token(last, 3, 4)]
  }

  lemma BraceTiles(s: string, last: Lexeme)
    requires |s| == 4 && s[..3] == "{2,"
    requires Recognizes(Metacharacters, s, Token(last, 3, 4))
    ensures Tiles(Metacharacters, s, BraceTokens(last), 0)
  {
    var ts := BraceTokens(last);
    assert [ts[0], ts[1], ts[2], ts[3]] == ts;
    BracePrefixRecognized(s);
    TilesCons(Metacharacters, s, ts[3], [], 3);
    TilesCons(Metacharacters, s, ts[2], [ts[3]], 2);
    TilesCons(Metacharacters, s, ts[1], [ts[2], ts[3]], 1);
    TilesCons(Metacharacters, s, ts[0], [ts[1], ts[2], ts[3]], 0);
  }

  lemma BracePrefixRecognized(s: string)
    requires |s| == 4 && s[..3] == "{2,"
    ensures Recognizes(Metacharacters, s, Token(LBrace, 0, 1))
    ensures Recognizes(Metacharacters, s, Token(Integer(2), 1, 2))
    ensures Recognizes(Metacharacters, s, Token(Comma, 2, 3))
  {
    assert s[0] == '{' && s[1..2] == "2" && s[2] == ',' && DecimalValue("2") == 2;
  }

  lemma BraceLexemes(last: Lexeme)
    ensures Lexemes(BraceTokens(last)) == [LBrace, Integer(2), Comma, last]
  {
  }

  lemma ExampleOpenRepetition()
    ensures ParsePattern("{2,}") == Ok(Single(Repetition(2, None), None))
  {
    var s := "{2,}";
    var ts := BraceTokens(RBrace);
    assert ParsePattern(s) == Syntax(Parse(ts)) by {
      assert s[..3] == "{2," && s[3] == '}';
      BraceTiles(s, RBrace);
      LexedAs(Metacharacters, s, ts);
    }
    BraceLexemes(RBrace);
    OpenRepetitionParses(2);
  }

  lemma ExampleUnclosedRepetition()
    ensures ParsePattern("{2,5") == Err(SyntaxFailure(ParseError(4, None, {"}"})))
  {
    var s := "{2,5";
    var ts := BraceTokens(Integer(5));
    assert ParsePattern(s) == Syntax(Parse(ts)) by {
      assert s[..3] == "{2," && s[3..4] == "5" && DecimalValue("5") == 5;
      BraceTiles(s, Integer(5));
      LexedAs(Metacharacters, s, ts);
    }
    BraceLexemes(Integer(5));
    UnclosedRepetitionStuck(2, 5);
    ParseStuckAt(ts, Stuck([], {"}"}));
  }

  // ---------------------------------------------------------------------
  // The bounded repetition `{ INTEGER , INTEGER }`.
  // ---------------------------------------------------------------------

  /** The text of a bounded repetition, numbers in decimal. */
  function BoundedText(n: nat, m: nat): (s: string)
  {
    "{" + DecimalDigits(n) + "," + DecimalDigits(m) + "}"
  }

  /** The lexeme the lexer makes of a comma: METACHARACTER when the class
      holds it, the structural comma otherwise. */
  function CommaLexeme(meta: set<char>): (l: Lexeme)
  {
    if ',' in meta then Metacharacter(',') else Comma
  }

  /** Where the comma of `BoundedText(n, m)` stands. */
  function CommaIndex(n: nat): (i: nat)
  {
    1 + |DecimalDigits(n)|
  }

  /** The tokens of `BoundedText(n, m)`. */
  function BoundedTokens(meta: set<char>, n: nat, m: nat): (ts: seq<Token>)
  {
    PairTokens(meta, n, |DecimalDigits(n)|, m, |DecimalDigits(m)|)
  }

  /** The tokens of `{n,m}` when `n` takes `a` digits and `m` takes `b`. */
  function PairTokens(meta: set<char>, n: nat, a: nat, m: nat, b: nat): (ts: seq<Token>)
  {
    [Token(LBrace, 0, 1)] + PairTail(meta, n, a, m, b)
  }

  /** The tokens after the `{`. */
  function PairTail(meta: set<char>, n: nat, a: nat, m: nat, b: nat): (ts: seq<Token>)
  {
    [Token(Integer(n), 1, 1 + a), Token(CommaLexeme(meta), 1 + a, 2 + a),
     Token(Integer(m), 2 + a, 2 + a + b), Token(RBrace, 2 + a + b, 3 + a + b)]
  }

  lemma BoundedTextShape(n: nat, m: nat)
    ensures var s, a, b := BoundedText(n, m), |DecimalDigits(n)|, |DecimalDigits(m)|;
      && |s| == 3 + a + b
      && s[0] == '{' && s[1 + a] == ',' && s[2 + a + b] == '}'
      && s[1..1 + a] == DecimalDigits(n) && s[2 + a..2 + a + b] == DecimalDigits(m)
  {
    BracedShape(DecimalDigits(n), DecimalDigits(m));
  }

  lemma BracedShape(dn: string, dm: string)
    ensures var s, a, b := "{" + dn + "," + dm + "}", |dn|, |dm|;
      && |s| == 3 + a + b
      && s[0] == '{' && s[1 + a] == ',' && s[2 + a + b] == '}'
      && s[1..1 + a] == dn && s[2 + a..2 + a + b] == dm
  {
  }

  lemma IntegerRecognized(meta: set<char>, s: string, d: string, n: nat, i: nat)
    requires |d| >= 1 && AllDigits(d) && DecimalValue(d) == n
    requires i + |d| < |s| && s[i..i + |d|] == d && !IsDigit(s[i + |d|])
    requires meta == Metacharacters || meta == MetacharactersAsWritten
    ensures Recognizes(meta, s, Token(Integer(n), i, i + |d|))
  {
    assert s[i] == d[0];
  }

  lemma StructuralRecognized(meta: set<char>, s: string, i: nat, l: Lexeme)
    requires i < |s| && Structural(s[i]) == Some(l) && s[i] != ',' && s[i] !in meta
    ensures Recognizes(meta, s, Token(l, i, i + 1))
  {
  }

  lemma CommaRecognized(meta: set<char>, s: string, i: nat)
    requires i < |s| && s[i] == ','
    ensures Recognizes(meta, s, Token(CommaLexeme(meta), i, i + 1))
  {
  }

  /** The tokens of `, m }` at `i`. */
  lemma BracedTailTiles(meta: set<char>, s: string, dm: string, m: nat, i: nat)
    requires |dm| >= 1 && AllDigits(dm) && DecimalValue(dm) == m
    requires |s| == i + 2 + |dm|
    requires s[i] == ',' && s[i + 1..i + 1 + |dm|] == dm && s[i + 1 + |dm|] == '}'
    requires meta == Metacharacters || meta == MetacharactersAsWritten
    ensures Tiles(meta, s, [Token(CommaLexeme(meta), i, i + 1), Token(Integer(m), i + 1, i + 1 + |dm|),
                            Token(RBrace, i + 1 + |dm|, i + 2 + |dm|)], i)
  {
    var b := |dm|;
    var t2, t3, t4 := Token(CommaLexeme(meta), i, i + 1), Token(Integer(m), i + 1, i + 1 + b),
      Token(RBrace, i + 1 + b, i + 2 + b);
    assert Tiles(meta, s, [t4], i + 1 + b) by {
      StructuralRecognized(meta, s, i + 1 + b, RBrace);
      TilesCons(meta, s, t4, [], i + 1 + b);
    }
    assert Tiles(meta, s, [t3, t4], i + 1) by {
      IntegerRecognized(meta, s, dm, m, i + 1);
      TilesCons(meta, s, t3, [t4], i + 1);
    }
    CommaRecognized(meta, s, i);
    TilesCons(meta, s, t2, [t3, t4], i);
  }

  lemma BracedMinimumTiles(meta: set<char>, s: string, dn: string, n: nat, dm: string, m: nat, ts: seq<Token>)
    requires |dn| >= 1 && AllDigits(dn) && DecimalValue(dn) == n
    requires |dm| >= 1 && AllDigits(dm) && DecimalValue(dm) == m
    requires |s| == 3 + |dn| + |dm|
    requires s[1..1 + |dn|] == dn && s[1 + |dn|] == ','
    requires s[2 + |dn|..2 + |dn| + |dm|] == dm && s[2 + |dn| + |dm|] == '}'
    requires meta == Metacharacters || meta == MetacharactersAsWritten
    requires ts == PairTail(meta, n, |dn|, m, |dm|)
    ensures Tiles(meta, s, ts, 1)
  {
    var a, b := |dn|, |dm|;
    var t1, t2 := Token(Integer(n), 1, 1 + a), Token(CommaLexeme(meta), 1 + a, 2 + a);
    var t3, t4 := Token(Integer(m), 2 + a, 2 + a + b), Token(RBrace, 2 + a + b, 3 + a + b);
    assert ts == [t1] + [t2, t3, t4];
    assert Tiles(meta, s, [t2, t3, t4], 1 + a) by {
      BracedTailTiles(meta, s, dm, m, 1 + a);
    }
    assert Recognizes(meta, s, t1) by {
      IntegerRecognized(meta, s, dn, n, 1);
    }
    TilesCons(meta, s, t1, [t2, t3, t4], 1);
  }

  lemma BracedPairTiles(meta: set<char>, s: string, dn: string, n: nat, dm: string, m: nat)
    requires |dn| >= 1 && AllDigits(dn) && DecimalValue(dn) == n
    requires |dm| >= 1 && AllDigits(dm) && DecimalValue(dm) == m
    requires |s| == 3 + |dn| + |dm|
    requires s[0] == '{' && s[1..1 + |dn|] == dn && s[1 + |dn|] == ','
    requires s[2 + |dn|..2 + |dn| + |dm|] == dm && s[2 + |dn| + |dm|] == '}'
    requires meta == Metacharacters || meta == MetacharactersAsWritten
    ensures Tiles(meta, s, PairTokens(meta, n, |dn|, m, |dm|), 0)
  {
    BracedMinimumTiles(meta, s, dn, n, dm, m, PairTail(meta, n, |dn|, m, |dm|));
    StructuralRecognized(meta, s, 0, LBrace);
    TilesCons(meta, s, Token(LBrace, 0, 1), PairTail(meta, n, |dn|, m, |dm|), 0);
  }

  /** `BoundedText(n, m)` is tiled by `BoundedTokens(meta, n, m)`. */
  lemma BoundedTextTiles(meta: set<char>, n: nat, m: nat)
    requires meta == Metacharacters || meta == MetacharactersAsWritten
    ensures Tiles(meta, BoundedText(n, m), BoundedTokens(meta, n, m), 0)
  {
    BoundedTextShape(n, m);
    DecimalRoundTrip(n);
    DecimalRoundTrip(m);
    BracedPairTiles(meta, BoundedText(n, m), DecimalDigits(n), n, DecimalDigits(m), m);
  }

  /** With METACHARACTER as intended, `{n,m}` is a bounded repetition. */
  lemma BoundedRepetitionParses(n: nat, m: nat)
    ensures ParsePattern(BoundedText(n, m)) == Ok(Single(Repetition(n, Some(m)), None))
  {
    BoundedTextTiles(Metacharacters, n, m);
    var e := Single(Repetition(n, Some(m)), None);
    assert Render(e) == [LBrace, Integer(n), Comma, Integer(m), RBrace] by {
      var f := e.alternatives[0].factors[0];
      assert RenderFactor(f) == [LBrace, Integer(n), Comma, Integer(m), RBrace];
      assert RenderFactors([f]) == RenderFactor(f) + RenderFactors([]);
      assert e.alternatives[1..] == [];
    }
    assert Lexemes(BoundedTokens(Metacharacters, n, m)) == Render(e);
    ParsesTo(Metacharacters, BoundedText(n, m), BoundedTokens(Metacharacters, n, m), e);
  }

  /** As written, the comma of `{n,m}` is a METACHARACTER, and the parser,
      which expects `,` or `}` after the minimum, stops there. */
  lemma BoundedRepetitionRejectedAsWritten(n: nat, m: nat)
    ensures CommaIndex(n) < |BoundedText(n, m)| && BoundedText(n, m)[CommaIndex(n)] == ','
    ensures var i := CommaIndex(n);
      ParsePatternAsWritten(BoundedText(n, m)) ==
        Err(SyntaxFailure(ParseError(2, Some(Token(Metacharacter(','), i, i + 1)), {",", "}"})))
  {
    BoundedTextShape(n, m);
    var a, b := CommaIndex(n) - 1, |DecimalDigits(m)|;
    var ts := PairTokens(MetacharactersAsWritten, n, a, m, b);
    var err := ParseError(2, Some(Token(Metacharacter(','), 1 + a, 2 + a)), {",", "}"});
    assert ParsePatternAsWritten(BoundedText(n, m)) == Syntax(Parse(ts)) by {
      BoundedTextTiles(MetacharactersAsWritten, n, m);
      LexedAs(MetacharactersAsWritten, BoundedText(n, m), ts);
    }
    assert Parse(ts) == Err(err) by {
      PairRejectedAsWritten(n, a, m, b);
    }
    assert Syntax(Err(err)) == Err(SyntaxFailure(err));
    assert ParsePatternAsWritten(BoundedText(n, m)) == Err(SyntaxFailure(err));
  }

  lemma PairRejectedAsWritten(n: nat, a: nat, m: nat, b: nat)
    ensures Parse(PairTokens(MetacharactersAsWritten, n, a, m, b)) ==
      Err(ParseError(2, Some(Token(Metacharacter(','), 1 + a, 2 + a)), {",", "}"}))
  {
    var ts := PairTokens(MetacharactersAsWritten, n, a, m, b);
    var rest := [Metacharacter(','), Integer(m), RBrace];
    assert Lexemes(ts) == [LBrace, Integer(n)] + rest by {
      assert CommaLexeme(MetacharactersAsWritten) == Metacharacter(',');
      PairLexemes(MetacharactersAsWritten, n, a, m, b);
    }
    CommaMetacharacterStuck(n, m);
    ParseStuckAt(ts, Stuck(rest, {",", "}"}));
    assert ts[2] == Token(Metacharacter(','), 1 + a, 2 + a);
  }

  lemma PairLexemes(meta: set<char>, n: nat, a: nat, m: nat, b: nat)
    ensures Lexemes(PairTokens(meta, n, a, m, b)) == [LBrace, Integer(n), CommaLexeme(meta), Integer(m), RBrace]
  {
  }

  /** After `{ INTEGER`, anything but `,` or `}` stops the repetition. */
  lemma RepetitionStuckAfterMinimum(n: nat, rest: seq<Lexeme>)
    requires rest != [] && rest[0] != Comma && rest[0] != RBrace
    ensures ParseRepetition([Integer(n)] + rest) == Err(Stuck(rest, {",", "}"}))
  {
    assert ([Integer(n)] + rest)[1..] == rest;
  }

  /** A factor that gets stuck makes the whole expression stuck there. */
  lemma FactorStuck(ls: seq<Lexeme>, s: Stuck)
    requires ParseFactor(ls) == Err(s)
    ensures ParseExpression(ls) == Err(s)
  {
  }

  /** After `{ INTEGER`, a METACHARACTER comma is neither `,` nor `}`. */
  lemma CommaMetacharacterStuck(n: nat, m: nat)
    ensures var rest := [Metacharacter(','), Integer(m), RBrace];
      ParseExpression([LBrace, Integer(n)] + rest) == Err(Stuck(rest, {",", "}"}))
  {
    var rest := [Metacharacter(','), Integer(m), RBrace];
    var l1 := [Integer(n)] + rest;
    var ls := [LBrace] + l1;
    assert ParseRepetition(l1) == Err(Stuck(rest, {",", "}"})) by {
      RepetitionStuckAfterMinimum(n, rest);
    }
    assert ParseAtom(ls) == Err(Stuck(rest, {",", "}"})) by {
      assert ls[0] == LBrace && ls[1..] == l1;
    }
    FactorStuck(ls, Stuck(rest, {",", "}"}));
    assert [LBrace, Integer(n)] + rest == ls;
  }

  // ---------------------------------------------------------------------
  // What a parsed tree can hold.
  // ---------------------------------------------------------------------

  /** A PROPERTY name: a word character that is not a digit, then word
      characters. */
  predicate IsName(name: string)
  {
    && |name| > 0
    && IsPropertyStart(name[0])
    && forall k :: 0 < k < |name| ==> IsWordChar(name[k])
  }

  /** A lexeme the lexer can produce with METACHARACTER matching `meta`: a
      structural comma only when METACHARACTER does not claim it. */
  predicate LexemeFits(meta: set<char>, l: Lexeme)
  {
    match l
    case Metacharacter(c) => c in meta
    case Property(name) => IsName(name)
    case Comma => ',' !in meta
    case _ => true
  }

  predicate AllFit(meta: set<char>, ls: seq<Lexeme>)
  {
    forall l :: l in ls ==> LexemeFits(meta, l)
  }

  predicate AtomFits(meta: set<char>, a: Atom)
  {
    match a
    case PropertyAtom(name) => IsName(name)
    case PropertySet(members) => forall k :: 0 <= k < |members| ==> IsName(members[k])
    case Repetition(_, max) => max.Some? ==> ',' !in meta
  }

  predicate FactorFits(meta: set<char>, f: Factor)
  {
    AtomFits(meta, f.atom) && (f.quantifier.Some? ==> f.quantifier.value in meta)
  }

  /** Every quantifier is a METACHARACTER, every name a PROPERTY, and a
      bounded repetition only where the comma is not a METACHARACTER. */
  predicate TreeFits(meta: set<char>, e: Expression)
  {
    forall k, j :: 0 <= k < |e.alternatives| && 0 <= j < |e.alternatives[k].factors| ==>
      FactorFits(meta, e.alternatives[k].factors[j])
  }

  lemma {:induction false} TokensFit(meta: set<char>, s: string, ts: seq<Token>, i: nat)
    requires Tiles(meta, s, ts, i)
    ensures AllFit(meta, Lexemes(ts))
    decreases |ts|
  {
    if ts != [] {
      TokensFit(meta, s, ts[1..], ts[0].end);
      var t := ts[0];
      assert LexemeFits(meta, t.lexeme) by {
        if t.lexeme.Property? {
          var name := t.lexeme.name;
          assert name == s[t.index..t.end];
          assert IsName(name);
        }
      }
      assert Lexemes(ts) == [t.lexeme] + Lexemes(ts[1..]);
    }
  }

  lemma FactorFitsFromSpelling(meta: set<char>, f: Factor)
    requires AllFit(meta, RenderFactor(f))
    ensures FactorFits(meta, f)
  {
    var r := RenderAtom(f.atom);
    assert AllFit(meta, r) by {
      if f.quantifier.Some? {
        assert RenderFactor(f) == r + [Metacharacter(f.quantifier.value)];
      }
    }
    match f.atom {
      case PropertyAtom(name) =>
        assert Property(name) in r;
      case PropertySet(members) =>
        forall k | 0 <= k < |members|
          ensures IsName(members[k])
        {
          assert r[1 + k] == Properties(members)[k] == Property(members[k]);
          assert LexemeFits(meta, r[1 + k]);
        }
      case Repetition(min, max) =>
        if max.Some? {
          assert Comma in r;
        }
    }
    if f.quantifier.Some? {
      assert Metacharacter(f.quantifier.value) in RenderFactor(f);
    }
  }

  lemma {:induction false} FactorsFitFromSpelling(meta: set<char>, fs: seq<Factor>)
    requires AllFit(meta, RenderFactors(fs))
    ensures forall j :: 0 <= j < |fs| ==> FactorFits(meta, fs[j])
    decreases |fs|
  {
    if fs != [] {
      FactorFitsFromSpelling(meta, fs[0]);
      FactorsFitFromSpelling(meta, fs[1..]);
      forall j | 0 < j < |fs|
        ensures FactorFits(meta, fs[j])
      {
        assert fs[j] == fs[1..][j - 1];
      }
    }
  }

  lemma {:induction false} AlternativesFitFromSpelling(meta: set<char>, ts: seq<Term>)
    requires AllFit(meta, RenderAlternatives(ts))
    ensures forall k, j :: 0 <= k < |ts| && 0 <= j < |ts[k].factors| ==> FactorFits(meta, ts[k].factors[j])
    decreases |ts|
  {
    if ts != [] {
      FactorsFitFromSpelling(meta, ts[0].factors);
      AlternativesFitFromSpelling(meta, ts[1..]);
      forall k, j | 0 < k < |ts| && 0 <= j < |ts[k].factors|
        ensures FactorFits(meta, ts[k].factors[j])
      {
        assert ts[k] == ts[1..][k - 1];
      }
    }
  }

  /** A tree whose spelling holds only lexemes that fit fits itself. */
  lemma TreeFitsFromSpelling(meta: set<char>, e: Expression)
    requires AllFit(meta, Render(e))
    ensures TreeFits(meta, e)
  {
    if e.alternatives != [] {
      var alts := e.alternatives;
      FactorsFitFromSpelling(meta, alts[0].factors);
      AlternativesFitFromSpelling(meta, alts[1..]);
      forall k, j | 0 <= k < |alts| && 0 <= j < |alts[k].factors|
        ensures FactorFits(meta, alts[k].factors[j])
      {
        if k > 0 {
          assert alts[k] == alts[1..][k - 1];
        }
      }
    }
  }

  /** The tokens and lexemes behind a successful parse of a pattern. */
  lemma PatternParsed(meta: set<char>, s: string, e: Expression) returns (ts: seq<Token>)
    requires ParsePatternWith(meta, s) == Ok(e)
    ensures Tiles(meta, s, ts, 0)
    ensures ParseExpression(Lexemes(ts)) == Ok((e, []))
  {
    ts := LexFrom(meta, s, 0).value;
  }

  /** Every tree the pipeline builds is well formed, and fits the lexer:
      its quantifiers are METACHARACTERs, its names PROPERTY names, and it
      holds a bounded repetition only if the comma is not a METACHARACTER. */
  lemma PatternFits(meta: set<char>, s: string, e: Expression)
    requires ParsePatternWith(meta, s) == Ok(e)
    ensures WellFormed(e)
    ensures TreeFits(meta, e)
  {
    var ts := PatternParsed(meta, s, e);
    var ls := Lexemes(ts);
    RenderParse(ls, e);
    TokensFit(meta, s, ts, 0);
    forall l | l in Render(e)
      ensures LexemeFits(meta, l)
    {
      CanonicalKeeps(ls, l);
    }
    TreeFitsFromSpelling(meta, e);
  }

  predicate IsBounded(a: Atom)
  {
    a.Repetition? && a.max.Some?
  }

  predicate NoBoundedRepetition(e: Expression)
  {
    forall k, j :: 0 <= k < |e.alternatives| && 0 <= j < |e.alternatives[k].factors| ==>
      !IsBounded(e.alternatives[k].factors[j].atom)
  }

  /** When the METACHARACTER class claims the comma, as line 7's does, no
      pattern parses to a bounded repetition. */
  lemma BoundedRepetitionUnreachable(meta: set<char>, s: string)
    requires ',' in meta
    ensures ParsePatternWith(meta, s).Ok? ==> NoBoundedRepetition(ParsePatternWith(meta, s).value)
  {
    if ParsePatternWith(meta, s).Ok? {
      PatternFits(meta, s, ParsePatternWith(meta, s).value);
    }
  }

  /** As written, a comma after an atom is taken for its quantifier. */
  lemma CommaQuantifierAsWritten()
    ensures ParsePatternAsWritten("a,") == Ok(Single(PropertyAtom("a"), Some(',')))
  {
    var s := "a,";
    var t0, t1 := Token(Property("a"), 0, 1), Token(Metacharacter(','), 1, 2);
    assert s[0..1] == "a";
    TilesCons(MetacharactersAsWritten, s, t1, [], 1);
    TilesCons(MetacharactersAsWritten, s, t0, [t1], 0);
    var e := Single(PropertyAtom("a"), Some(','));
    assert Render(e) == [Property("a"), Metacharacter(',')];
    ParsesTo(MetacharactersAsWritten, s, [t0, t1], e);
  }

  // ---------------------------------------------------------------------
  // Alternatives and the `|` characters of the text.
  // ---------------------------------------------------------------------

  /** How many times `c` occurs in `s`. */
  function Occurrences(c: char, s: string): (n: nat)
    ensures n <= |s|
  {
    if s == [] then 0 else (if s[0] == c then 1 else 0) + Occurrences(c, s[1..])
  }

  lemma {:induction false} OccurrencesAppend(c: char, a: string, b: string)
    ensures Occurrences(c, a + b) == Occurrences(c, a) + Occurrences(c, b)
  {
    if a == [] {
      assert a + b == b;
    } else {
      assert (a + b)[1..] == a[1..] + b;
      OccurrencesAppend(c, a[1..], b);
    }
  }

  lemma {:induction false} Absent(c: char, s: string)
    requires forall k :: 0 <= k < |s| ==> s[k] != c
    ensures Occurrences(c, s) == 0
  {
    if s != [] {
      Absent(c, s[1..]);
    }
  }

  /** A token spans one `|` if it is a `|` token, and none otherwise. */
  lemma PipesInToken(meta: set<char>, s: string, t: Token)
    requires Recognizes(meta, s, t) && '|' !in meta
    ensures Occurrences('|', s[t.index..t.end]) == if t.lexeme == Pipe then 1 else 0
  {
    var span := s[t.index..t.end];
    if t.end == t.index + 1 {
      assert span == [s[t.index]];
      assert span[1..] == [];
    } else {
      forall k | 0 <= k < |span|
        ensures span[k] != '|'
      {
        if t.lexeme.Property? && k > 0 {
          assert IsWordChar(t.lexeme.name[k]);
        }
      }
      Absent('|', span);
    }
  }

  /** The `|` tokens of a tiling are the `|` characters of the text. */
  lemma {:induction false} PipesInTiling(meta: set<char>, s: string, ts: seq<Token>, i: nat)
    requires Tiles(meta, s, ts, i) && '|' !in meta
    ensures i <= |s|
    ensures PipeCount(Lexemes(ts)) == Occurrences('|', s[i..])
    decreases |ts|
  {
    if ts == [] {
      assert s[i..] == [];
    } else {
      var t := ts[0];
      PipesInTiling(meta, s, ts[1..], t.end);
      PipesInToken(meta, s, t);
      assert s[i..] == s[i..t.end] + s[t.end..];
      OccurrencesAppend('|', s[i..t.end], s[t.end..]);
      var ls := Lexemes(ts);
      assert ls[1..] == Lexemes(ts[1..]);
    }
  }

  lemma AlternativesOfTiling(meta: set<char>, s: string, ts: seq<Token>, e: Expression)
    requires Tiles(meta, s, ts, 0) && '|' !in meta
    requires ParseExpression(Lexemes(ts)) == Ok((e, []))
    ensures |e.alternatives| == 1 + Occurrences('|', s)
  {
    AlternativesCount(Lexemes(ts), e);
    PipesInTiling(meta, s, ts, 0);
    assert s[0..] == s;
  }

  lemma PipeIsStructural()
    ensures '|' !in Metacharacters
  {
  }

  /** When the METACHARACTER class leaves `|` alone, a pattern has one
      alternative more than it has `|` characters. */
  lemma PatternAlternatives(meta: set<char>, s: string)
    requires '|' !in meta
    ensures ParsePatternWith(meta, s).Ok? ==>
      |ParsePatternWith(meta, s).value.alternatives| == 1 + Occurrences('|', s)
  {
    if ParsePatternWith(meta, s).Ok? {
      var e := ParsePatternWith(meta, s).value;
      var ts := PatternParsed(meta, s, e);
      AlternativesOfTiling(meta, s, ts, e);
    }
  }
}
