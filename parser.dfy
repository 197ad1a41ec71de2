/**
  The grammar of class `RegexParser` in regexmachina/parser.py, as one
  recursive-descent function per nonterminal over the lexemes of a pattern.

  Each function returns the tree it built and the lexemes it left, or where
  it got stuck and which token types would have been accepted there. One
  lexeme of lookahead decides every choice: the atom alternative by its
  first lexeme (`PROPERTY`, `[` or `{`), the two repetition forms by the
  lexeme after the comma (`INTEGER` or `}`).
*/
module RegexParser {
  import opened Wrappers
  import opened RegexLexer
  import opened RegexSyntax

  /** Where a production gave up: the lexemes from the offending one on, and
      the token types it would have accepted in its place. */
  datatype Stuck = Stuck(rest: seq<Lexeme>, expected: set<string>)

  type Parsed<T> = Result<(T, seq<Lexeme>), Stuck>

  /** A syntax error: the offset of the offending token in the token
      sequence, the token (None at the end of the input), and the token types
      that would have been accepted there. */
  datatype ParseError = ParseError(offset: nat, found: Option<Token>, expected: set<string>)

  const AtomStarts: set<string> := {"PROPERTY", "[", "{"}

  predicate StartsAtom(l: Lexeme)
  {
    l.Property? || l == LBracket || l == LBrace
  }

  predicate LeadsWithMetacharacter(ls: seq<Lexeme>)
  {
    ls != [] && ls[0].Metacharacter?
  }

  predicate IsSuffix(rest: seq<Lexeme>, ls: seq<Lexeme>)
  {
    |rest| <= |ls| && rest == ls[|ls| - |rest|..]
  }

  /** An error never lists as expected the token type it found. */
  predicate Unexpected(s: Stuck)
  {
    s.rest == [] || TypeName(s.rest[0]) !in s.expected
  }

  /** A production that, when it succeeds, consumes at least one lexeme. */
  predicate Consumes<T>(ls: seq<Lexeme>, r: Parsed<T>)
  {
    match r
    case Ok((_, rest)) => IsSuffix(rest, ls) && |rest| < |ls|
    case Err(s) => IsSuffix(s.rest, ls) && Unexpected(s)
  }

  /** A repetition, which may consume nothing. */
  predicate ConsumesAny<T>(ls: seq<Lexeme>, r: Parsed<T>)
  {
    match r
    case Ok((_, rest)) => IsSuffix(rest, ls)
    case Err(s) => IsSuffix(s.rest, ls) && Unexpected(s)
  }

  predicate TermEndsUnquantified(t: Term)
  {
    t.factors != [] && t.factors[|t.factors| - 1].quantifier.None?
  }

  /** The last factor of the tree has no quantifier, so one may follow. */
  predicate EndsUnquantified(e: Expression)
  {
    e.alternatives != [] && TermEndsUnquantified(e.alternatives[|e.alternatives| - 1])
  }

  /** The property names of a property set: zero or more PROPERTY tokens. */
  function ParseNames(ls: seq<Lexeme>): (r: (seq<string>, seq<Lexeme>))
    ensures |r.0| <= |ls| && ls[..|r.0|] == Properties(r.0) && r.1 == ls[|r.0|..]
    ensures r.1 == [] || !r.1[0].Property?
    decreases |ls|
  {
    if ls != [] && ls[0].Property? then
      var (names, rest) := ParseNames(ls[1..]);
      ([ls[0].name] + names, rest)
    else ([], ls)
  }

  /** `property_set "]"`, after the `[`. */
  function ParsePropertySet(ls: seq<Lexeme>): (r: Parsed<Atom>)
    ensures Consumes(ls, r)
    ensures r.Ok? ==> r.value.0.PropertySet?
  {
    var (names, rest) := ParseNames(ls);
    if rest != [] && rest[0] == RBracket then Ok((PropertySet(names), rest[1..]))
    else Err(Stuck(rest, {"PROPERTY", "]"}))
  }

  /** `INTEGER [ "," ] "}"` or `INTEGER "," INTEGER "}"`, after the `{`.
      Both bounds are taken as written; nothing relates the maximum to the
      minimum. */
  function ParseRepetition(ls: seq<Lexeme>): (r: Parsed<Atom>)
    ensures Consumes(ls, r)
    ensures r.Ok? ==> r.value.0.Repetition? && ls[0] == Integer(r.value.0.min)
  {
    if ls == [] || !ls[0].Integer? then Err(Stuck(ls, {"INTEGER"}))
    else
      var min := ls[0].value;
      var ls1 := ls[1..];
      if ls1 != [] && ls1[0] == RBrace then Ok((Repetition(min, None), ls1[1..]))
      else if ls1 == [] || ls1[0] != Comma then Err(Stuck(ls1, {",", "}"}))
      else
        var ls2 := ls1[1..];
        if ls2 != [] && ls2[0] == RBrace then Ok((Repetition(min, None), ls2[1..]))
        else if ls2 == [] || !ls2[0].Integer? then Err(Stuck(ls2, {"INTEGER", "}"}))
        else
          var max := ls2[0].value;
          var ls3 := ls2[1..];
          if ls3 != [] && ls3[0] == RBrace then Ok((Repetition(min, Some(max)), ls3[1..]))
          else Err(Stuck(ls3, {"}"}))
  }

  /** `atom`: the first lexeme alone picks the alternative. */
  function ParseAtom(ls: seq<Lexeme>): (r: Parsed<Atom>)
    ensures Consumes(ls, r)
    ensures r.Ok? ==>
      && ls != []
      && (ls[0].Property? <==> r.value.0.PropertyAtom?)
      && (ls[0] == LBracket <==> r.value.0.PropertySet?)
      && (ls[0] == LBrace <==> r.value.0.Repetition?)
    ensures ls == [] || !StartsAtom(ls[0]) ==> r == Err(Stuck(ls, AtomStarts))
  {
    if ls == [] then Err(Stuck(ls, AtomStarts))
    else
      match ls[0]
      case Property(name) => Ok((PropertyAtom(name), ls[1..]))
      case LBracket => ParsePropertySet(ls[1..])
      case LBrace => ParseRepetition(ls[1..])
      case _ => Err(Stuck(ls, AtomStarts))
  }

  /** `factor = atom [ METACHARACTER ]`: the quantifier is there exactly when
      a METACHARACTER follows the atom. */
  function ParseFactor(ls: seq<Lexeme>): (r: Parsed<Factor>)
    ensures Consumes(ls, r)
    ensures r.Ok? ==>
      && ParseAtom(ls).Ok?
      && r.value.0.atom == ParseAtom(ls).value.0
      && (r.value.0.quantifier.Some? <==> LeadsWithMetacharacter(ParseAtom(ls).value.1))
      && (r.value.0.quantifier.None? ==> !LeadsWithMetacharacter(r.value.1))
  {
    match ParseAtom(ls)
    case Err(s) => Err(s)
    case Ok((a, rest)) =>
      if LeadsWithMetacharacter(rest) then Ok((Factor(a, Some(rest[0].symbol)), rest[1..]))
      else Ok((Factor(a, None), rest))
  }

  /** `{ factor }`: factors as long as the next lexeme can start one. */
  function ParseFactors(ls: seq<Lexeme>): (r: Parsed<seq<Factor>>)
    ensures ConsumesAny(ls, r)
    ensures r.Ok? ==> r.value.1 == [] || !StartsAtom(r.value.1[0])
    ensures r.Ok? && r.value.0 == [] ==> r.value.1 == ls
    ensures r.Ok? && r.value.0 != [] && r.value.0[|r.value.0| - 1].quantifier.None? ==>
      !LeadsWithMetacharacter(r.value.1)
    decreases |ls|
  {
    if ls != [] && StartsAtom(ls[0]) then
      match ParseFactor(ls)
      case Err(s) => Err(s)
      case Ok((f, rest)) =>
        match ParseFactors(rest)
        case Err(s) => Err(s)
        case Ok((fs, rest2)) =>
          LastOfCons(f, fs);
          assert fs == [] ==> rest2 == rest && (f.quantifier.None? ==> !LeadsWithMetacharacter(rest));
          Ok(([f] + fs, rest2))
    else Ok(([], ls))
  }

  /** `term = factor { factor }`: one factor or more. */
  function ParseTerm(ls: seq<Lexeme>): (r: Parsed<Term>)
    ensures Consumes(ls, r)
    ensures r.Ok? ==> r.value.0.factors != [] && (r.value.1 == [] || !StartsAtom(r.value.1[0]))
    ensures r.Ok? && TermEndsUnquantified(r.value.0) ==> !LeadsWithMetacharacter(r.value.1)
  {
    match ParseFactor(ls)
    case Err(s) => Err(s)
    case Ok((f, rest)) =>
      match ParseFactors(rest)
      case Err(s) => Err(s)
      case Ok((fs, rest2)) => Ok((Term([f] + fs), rest2))
  }

  /** `{ "|" term }`: the terms after the first, in source order. */
  function ParseAlternatives(ls: seq<Lexeme>): (r: Parsed<seq<Term>>)
    ensures ConsumesAny(ls, r)
    ensures r.Ok? ==> r.value.1 == [] || r.value.1[0] != Pipe
    ensures r.Ok? && r.value.0 == [] ==> r.value.1 == ls
    ensures r.Ok? && r.value.0 != [] ==>
      && (r.value.1 == [] || !StartsAtom(r.value.1[0]))
      && (TermEndsUnquantified(r.value.0[|r.value.0| - 1]) ==> !LeadsWithMetacharacter(r.value.1))
    decreases |ls|
  {
    if ls != [] && ls[0] == Pipe then
      match ParseTerm(ls[1..])
      case Err(s) => Err(s)
      case Ok((t, rest)) =>
        match ParseAlternatives(rest)
        case Err(s) => Err(s)
        case Ok((ts, rest2)) =>
          SuffixOfSuffix(rest2, rest, ls[1..]);
          SuffixOfSuffix(rest2, ls[1..], ls);
          LastOfCons(t, ts);
          Ok(([t] + ts, rest2))
    else Ok(([], ls))
  }

  /** `expression = term { "|" term }`: the list of terms. */
  function ParseExpression(ls: seq<Lexeme>): (r: Parsed<Expression>)
    ensures Consumes(ls, r)
    ensures r.Ok? ==> r.value.1 == [] || (r.value.1[0] != Pipe && !StartsAtom(r.value.1[0]))
    ensures r.Ok? && EndsUnquantified(r.value.0) ==> !LeadsWithMetacharacter(r.value.1)
  {
    match ParseTerm(ls)
    case Err(s) => Err(s)
    case Ok((t, rest)) =>
      match ParseAlternatives(rest)
      case Err(s) => Err(s)
      case Ok((ts, rest2)) => Ok((Expression([t] + ts), rest2))
  }

  /** The token types that could follow a complete expression: a lexeme's
      type is among them exactly when it is `|`, starts another factor, or
      is a METACHARACTER for a last factor that has no quantifier yet. */
  function ExpectedAfter(e: Expression): (expected: set<string>)
    ensures forall l :: TypeName(l) in expected <==>
      (l == Pipe || StartsAtom(l) || (l.Metacharacter? && EndsUnquantified(e)))
  {
    {"|"} + AtomStarts + (if EndsUnquantified(e) then {"METACHARACTER"} else {})
  }

  function Lexemes(ts: seq<Token>): (ls: seq<Lexeme>)
    ensures |ls| == |ts|
    ensures forall k :: 0 <= k < |ts| ==> ls[k] == ts[k].lexeme
  {
    seq(|ts|, k requires 0 <= k < |ts| => ts[k].lexeme)
  }

  /** A whole token sequence is one expression, or the first token that
      cannot continue it. */
  function Parse(ts: seq<Token>): (r: Result<Expression, ParseError>)
    ensures r.Err? ==>
      && r.error.offset <= |ts|
      && r.error.found == (if r.error.offset < |ts| then Some(ts[r.error.offset]) else None)
      && (r.error.found.Some? ==> TypeName(r.error.found.value.lexeme) !in r.error.expected)
  {
    var ls := Lexemes(ts);
    match ParseExpression(ls)
    case Err(s) =>
      var offset := |ls| - |s.rest|;
      if offset < |ts| then
        SuffixHead(ls, s.rest);
        Err(ParseError(offset, Some(ts[offset]), s.expected))
      else Err(ParseError(offset, None, s.expected))
    case Ok((e, rest)) =>
      if rest == [] then Ok(e)
      else
        var offset := |ls| - |rest|;
        SuffixHead(ls, rest);
        Err(ParseError(offset, Some(ts[offset]), ExpectedAfter(e)))
  }

  lemma SuffixOfSuffix(a: seq<Lexeme>, b: seq<Lexeme>, c: seq<Lexeme>)
    requires IsSuffix(a, b) && IsSuffix(b, c)
    ensures IsSuffix(a, c)
  {
  }

  lemma LastOfCons<T>(x: T, xs: seq<T>)
    ensures ([x] + xs)[|xs|] == if xs == [] then x else xs[|xs| - 1]
  {
  }

  lemma SuffixHead(ls: seq<Lexeme>, rest: seq<Lexeme>)
    requires IsSuffix(rest, ls) && rest != []
    ensures ls[|ls| - |rest|] == rest[0]
  {
  }
}
