/**
  The lexical rules of the pattern language (class `RegexLexer` of
  regexmachina/parser.py).

  A pattern is cut, left to right, into tokens of three declared kinds --
  METACHARACTER, INTEGER and PROPERTY, tried in that order of declaration --
  and the single-character structural tokens `|`, `[`, `]`, `{`, `}` and `,`
  that the grammar quotes. Nothing is skipped: any other character, white
  space included, is a lexical error.

  `LexFrom` is the specification: one token at a time, each the unique token
  that `Recognizes` allows at its position. `Tokenize` is the scanner, a
  position loop proved to compute `Lex`.
*/
module RegexLexer {
  import opened Wrappers

  /** A token's type together with its value. An INTEGER carries the number
      its digits spell (the rule's action replaces the matched text by that
      number); a PROPERTY carries its text; a METACHARACTER its character. */
  datatype Lexeme =
    | Integer(value: nat)
    | Property(name: string)
    | Metacharacter(symbol: char)
    | Pipe
    | LBracket
    | RBracket
    | LBrace
    | RBrace
    | Comma

  /** A token and the half-open span [index, end) of the pattern it covers. */
  datatype Token = Token(lexeme: Lexeme, index: nat, end: nat)

  /** The offset and the character at which no token can start. */
  datatype LexError = LexError(index: nat, character: char)

  /** The token type's name, as the grammar spells it. */
  function TypeName(l: Lexeme): (name: string)
  {
    match l
    case Integer(_) => "INTEGER"
    case Property(_) => "PROPERTY"
    case Metacharacter(_) => "METACHARACTER"
    case Pipe => "|"
    case LBracket => "["
    case RBracket => "]"
    case LBrace => "{"
    case RBrace => "}"
    case Comma => ","
  }

  /** The METACHARACTER character class of this model: the rule's class
      without the comma, which is lexed as the structural `,` instead. */
  const Metacharacters: set<char> := {'*', '?', '+', '^'}

  /** The METACHARACTER character class as the rule writes it: one character
      out of `*`, `,`, `?`, `+` and `^` (the repeated members collapse). */
  const MetacharactersAsWritten: set<char> := {'*', ',', '?', '+', '^'}

  predicate IsDigit(c: char)
  {
    '0' <= c <= '9'
  }

  /** A word character (`\w`), restricted to ASCII. */
  predicate IsWordChar(c: char)
  {
    IsDigit(c) || 'a' <= c <= 'z' || 'A' <= c <= 'Z' || c == '_'
  }

  /** A character that may begin a PROPERTY: a word character that is not a
      digit. */
  predicate IsPropertyStart(c: char)
  {
    IsWordChar(c) && !IsDigit(c)
  }

  /** The structural token a character stands for, if any. */
  function Structural(c: char): (l: Option<Lexeme>)
  {
    match c
    case '|' => Some(Pipe)
    case '[' => Some(LBracket)
    case ']' => Some(RBracket)
    case '{' => Some(LBrace)
    case '}' => Some(RBrace)
    case ',' => Some(Comma)
    case _ => None
  }

  /** A character some rule can start a token with. */
  predicate CanStartToken(meta: set<char>, c: char)
  {
    c in meta || IsWordChar(c) || Structural(c).Some?
  }

  predicate AllDigits(s: string)
  {
    forall k :: 0 <= k < |s| ==> IsDigit(s[k])
  }

  function DigitValue(c: char): (d: nat)
    requires IsDigit(c)
  {
    c as int - '0' as int
  }

  function DigitChar(d: nat): (c: char)
    requires d < 10
    ensures IsDigit(c) && DigitValue(c) == d
  {
    ('0' as int + d) as char
  }

  function Power10(k: nat): (p: nat)
    ensures p >= 1
  {
    if k == 0 then 1 else 10 * Power10(k - 1)
  }

  /** The number a run of decimal digits spells (Python's `int` on it): a
      run of k digits spells a number below 10^k, and one of at least
      10^(k-1) when it has no leading zero. */
  function DecimalValue(digits: string): (v: nat)
    requires AllDigits(digits)
    ensures v < Power10(|digits|)
    ensures |digits| >= 1 && digits[0] != '0' ==> Power10(|digits| - 1) <= v
    decreases |digits|
  {
    if digits == [] then 0
    else 10 * DecimalValue(digits[..|digits| - 1]) + DigitValue(digits[|digits| - 1])
  }

  /** The shortest decimal spelling of a number. */
  function DecimalDigits(n: nat): (d: string)
    ensures |d| >= 1 && AllDigits(d)
    ensures n >= 10 ==> d[0] != '0'
  {
    if n < 10 then [DigitChar(n)] else DecimalDigits(n / 10) + [DigitChar(n % 10)]
  }

  /** Reading back the decimal spelling of a number gives the number. */
  lemma {:induction false} DecimalRoundTrip(n: nat)
    ensures DecimalValue(DecimalDigits(n)) == n
  {
    if n >= 10 {
      var d := DecimalDigits(n);
      assert d[..|d| - 1] == DecimalDigits(n / 10);
      DecimalRoundTrip(n / 10);
    }
  }

  /** A leading zero does not change an INTEGER's value. */
  lemma {:induction false} LeadingZeroIgnored(digits: string)
    requires AllDigits(digits)
    ensures AllDigits(['0'] + digits)
    ensures DecimalValue(['0'] + digits) == DecimalValue(digits)
  {
    var z := ['0'] + digits;
    if digits != [] {
      assert z[..|z| - 1] == ['0'] + digits[..|digits| - 1];
      LeadingZeroIgnored(digits[..|digits| - 1]);
    }
  }

  /** The end of the longest run of digits starting at `i`. */
  function DigitRunEnd(s: string, i: nat): (j: nat)
    requires i <= |s|
    ensures i <= j <= |s|
    ensures forall k :: i <= k < j ==> IsDigit(s[k])
    ensures j == |s| || !IsDigit(s[j])
    decreases |s| - i
  {
    if i < |s| && IsDigit(s[i]) then DigitRunEnd(s, i + 1) else i
  }

  /** The end of the longest run of word characters starting at `i`. */
  function WordRunEnd(s: string, i: nat): (j: nat)
    requires i <= |s|
    ensures i <= j <= |s|
    ensures forall k :: i <= k < j ==> IsWordChar(s[k])
    ensures j == |s| || !IsWordChar(s[j])
    decreases |s| - i
  {
    if i < |s| && IsWordChar(s[i]) then WordRunEnd(s, i + 1) else i
  }

  /** `t` is a token the rules allow over its span of `s`, when METACHARACTER
      matches the characters in `meta`: METACHARACTER wins wherever it
      applies (it is declared first); an INTEGER is a longest run of digits
      and holds their decimal value; a PROPERTY is a longest run of word
      characters that does not start with a digit; every other token is the
      one character it stands for. */
  predicate Recognizes(meta: set<char>, s: string, t: Token)
  {
    && t.index < t.end <= |s|
    && (t.lexeme.Metacharacter? <==> s[t.index] in meta)
    && match t.lexeme
      case Metacharacter(c) => t.end == t.index + 1 && c == s[t.index]
      case Integer(n) =>
        && AllDigits(s[t.index..t.end])
        && (t.end == |s| || !IsDigit(s[t.end]))
        && n == DecimalValue(s[t.index..t.end])
      case Property(name) =>
        && name == s[t.index..t.end]
        && IsPropertyStart(name[0])
        && (forall k :: 0 < k < |name| ==> IsWordChar(name[k]))
        && (t.end == |s| || !IsWordChar(s[t.end]))
      case Pipe => t.end == t.index + 1 && s[t.index] == '|'
      case LBracket => t.end == t.index + 1 && s[t.index] == '['
      case RBracket => t.end == t.index + 1 && s[t.index] == ']'
      case LBrace => t.end == t.index + 1 && s[t.index] == '{'
      case RBrace => t.end == t.index + 1 && s[t.index] == '}'
      case Comma => t.end == t.index + 1 && s[t.index] == ','
  }

  /** `ts` cut `s[from..]` into consecutive recognized tokens. */
  predicate Tiles(meta: set<char>, s: string, ts: seq<Token>, from: nat)
    decreases |ts|
  {
    if ts == [] then from == |s|
    else ts[0].index == from && Recognizes(meta, s, ts[0]) && Tiles(meta, s, ts[1..], ts[0].end)
  }

  /** The token that starts at `i`, or None if no rule matches there. */
  function NextToken(meta: set<char>, s: string, i: nat): (r: Option<Token>)
    requires i < |s|
    ensures r.Some? ==> r.value.index == i && Recognizes(meta, s, r.value)
    ensures r.None? <==> !CanStartToken(meta, s[i])
  {
    var c := s[i];
    if c in meta then Some(Token(Metacharacter(c), i, i + 1))
    else if IsDigit(c) then
      var j := DigitRunEnd(s, i);
      Some(Token(Integer(DecimalValue(s[i..j])), i, j))
    else if IsPropertyStart(c) then
      var j := WordRunEnd(s, i + 1);
      Some(Token(Property(s[i..j]), i, j))
    else
      match Structural(c)
      case Some(l) => Some(Token(l, i, i + 1))
      case None => None
  }

  /** The tokens of `s[i..]`, or the first position where no token starts. */
  function LexFrom(meta: set<char>, s: string, i: nat): (r: Result<seq<Token>, LexError>)
    requires i <= |s|
    ensures r.Ok? ==> Tiles(meta, s, r.value, i)
    ensures r.Err? ==>
      && i <= r.error.index < |s|
      && r.error.character == s[r.error.index]
      && !CanStartToken(meta, s[r.error.index])
      && forall k :: i <= k < r.error.index ==> CanStartToken(meta, s[k])
    decreases |s| - i
  {
    if i == |s| then Ok([])
    else
      match NextToken(meta, s, i)
      case None => Err(LexError(i, s[i]))
      case Some(t) =>
        match LexFrom(meta, s, t.end)
        case Ok(ts) => Ok([t] + ts)
        case Err(e) =>
          TokenCharsCanStart(meta, s, t);
          Err(e)
  }

  /** The tokens of a whole pattern: a cutting of all of it into tokens the
      rules allow, or the first character that no rule can start. */
  function Lex(s: string): (r: Result<seq<Token>, LexError>)
    ensures r.Ok? ==> Tiles(Metacharacters, s, r.value, 0)
    ensures r.Err? ==>
      && r.error.index < |s|
      && r.error.character == s[r.error.index]
      && !CanStartToken(Metacharacters, s[r.error.index])
      && forall k :: 0 <= k < r.error.index ==> CanStartToken(Metacharacters, s[k])
  {
    LexFrom(Metacharacters, s, 0)
  }

  /** At any position the rules allow at most one token: lexing is
      deterministic. */
  lemma RecognizesUnique(meta: set<char>, s: string, t1: Token, t2: Token)
    requires Recognizes(meta, s, t1) && Recognizes(meta, s, t2)
    requires t1.index == t2.index
    ensures t1 == t2
  {
    LeadCharacter(meta, s, t1);
    LeadCharacter(meta, s, t2);
    if t1.lexeme.Integer? && t2.lexeme.Integer? {
      IntegerEnd(meta, s, t1);
      IntegerEnd(meta, s, t2);
    } else if t1.lexeme.Property? && t2.lexeme.Property? {
      PropertyEnd(meta, s, t1);
      PropertyEnd(meta, s, t2);
    }
  }

  /** The first character of a recognized token fixes its type. */
  lemma LeadCharacter(meta: set<char>, s: string, t: Token)
    requires Recognizes(meta, s, t)
    ensures t.lexeme.Integer? ==> s[t.index] !in meta && IsDigit(s[t.index])
    ensures t.lexeme.Property? ==> s[t.index] !in meta && IsPropertyStart(s[t.index])
    ensures !t.lexeme.Integer? && !t.lexeme.Property? && !t.lexeme.Metacharacter? ==>
      s[t.index] !in meta && Structural(s[t.index]) == Some(t.lexeme)
  {
    if t.lexeme.Integer? {
      assert s[t.index..t.end][0] == s[t.index];
    } else if t.lexeme.Property? {
      assert t.lexeme.name[0] == s[t.index];
    }
  }

  /** An INTEGER ends where the run of digits ends. */
  lemma IntegerEnd(meta: set<char>, s: string, t: Token)
    requires Recognizes(meta, s, t) && t.lexeme.Integer?
    ensures t.end == DigitRunEnd(s, t.index)
  {
  }

  /** A PROPERTY ends where the run of word characters ends. */
  lemma PropertyEnd(meta: set<char>, s: string, t: Token)
    requires Recognizes(meta, s, t) && t.lexeme.Property?
    ensures t.end == WordRunEnd(s, t.index + 1)
  {
  }

  /** Any cutting of `s[i..]` into recognized tokens is the one `LexFrom`
      computes: the lexer finds the tokenization whenever one exists. */
  lemma {:induction false} LexComplete(meta: set<char>, s: string, ts: seq<Token>, i: nat)
    requires i <= |s|
    requires Tiles(meta, s, ts, i)
    ensures LexFrom(meta, s, i) == Ok(ts)
    decreases |ts|
  {
    if ts != [] {
      var t := NextToken(meta, s, i);
      assert CanStartToken(meta, s[i]) by {
        var l := ts[0].lexeme;
        if l.Integer? {
          assert s[ts[0].index..ts[0].end][0] == s[i];
        } else if l.Property? {
          assert l.name[0] == s[i];
        }
      }
      RecognizesUnique(meta, s, t.value, ts[0]);
      LexComplete(meta, s, ts[1..], ts[0].end);
      assert [ts[0]] + ts[1..] == ts;
    }
  }

  /** Every character covered by a recognized token could itself start one. */
  lemma TokenCharsCanStart(meta: set<char>, s: string, t: Token)
    requires Recognizes(meta, s, t)
    ensures forall k :: t.index <= k < t.end ==> CanStartToken(meta, s[k])
  {
    forall k | t.index <= k < t.end
      ensures CanStartToken(meta, s[k])
    {
      if t.lexeme.Integer? {
        assert s[t.index..t.end][k - t.index] == s[k];
      } else if t.lexeme.Property? {
        assert t.lexeme.name[k - t.index] == s[k];
      }
    }
  }

  /** In a text that can be tiled, every character could start a token. */
  lemma {:induction false} TiledCharsCanStart(meta: set<char>, s: string, ts: seq<Token>, i: nat)
    requires Tiles(meta, s, ts, i)
    ensures forall k :: i <= k < |s| ==> CanStartToken(meta, s[k])
    decreases |ts|
  {
    if ts != [] {
      TiledCharsCanStart(meta, s, ts[1..], ts[0].end);
      TokenCharsCanStart(meta, s, ts[0]);
    }
  }

  /** If every character of `s[i..]` can start a token, lexing succeeds. */
  lemma {:induction false} LexTotal(meta: set<char>, s: string, i: nat)
    requires i <= |s|
    requires forall k :: i <= k < |s| ==> CanStartToken(meta, s[k])
    ensures LexFrom(meta, s, i).Ok?
  {
  }

  /** Lexing fails exactly when some character can start no token. */
  lemma LexSucceedsIff(meta: set<char>, s: string)
    ensures LexFrom(meta, s, 0).Ok? <==> forall k :: 0 <= k < |s| ==> CanStartToken(meta, s[k])
  {
    var r := LexFrom(meta, s, 0);
    if r.Ok? {
      TiledCharsCanStart(meta, s, r.value, 0);
    }
    if forall k :: 0 <= k < |s| ==> CanStartToken(meta, s[k]) {
      LexTotal(meta, s, 0);
    }
  }

  /** `Lex(s)` holds the tokens `ts` exactly when `ts` cut all of `s` into
      tokens the rules allow. */
  lemma LexIsTheTiling(s: string, ts: seq<Token>)
    ensures Lex(s) == Ok(ts) <==> Tiles(Metacharacters, s, ts, 0)
  {
    if Tiles(Metacharacters, s, ts, 0) {
      LexComplete(Metacharacters, s, ts, 0);
    }
  }

  /** Prepends the tokens already produced to the outcome of lexing the rest. */
  function Prepend(done: seq<Token>, r: Result<seq<Token>, LexError>): (p: Result<seq<Token>, LexError>)
  {
    match r
    case Ok(ts) => Ok(done + ts)
    case Err(e) => Err(e)
  }

  /** Cuts the token that starts at the cursor `i`: a METACHARACTER, a
      digit run converted to its value, a word run, or one structural
      character. */
  method ScanToken(s: string, i: nat) returns (t: Option<Token>)
    requires i < |s|
    ensures t == NextToken(Metacharacters, s, i)
  {
    var c := s[i];
    if c in Metacharacters {
      t := Some(Token(Metacharacter(c), i, i + 1));
    } else if IsDigit(c) {
      var j := i + 1;
      while j < |s| && IsDigit(s[j])
        invariant i < j <= |s|
        invariant DigitRunEnd(s, j) == DigitRunEnd(s, i)
        decreases |s| - j
      {
        j := j + 1;
      }
      t := Some(Token(Integer(DecimalValue(s[i..j])), i, j));
    } else if IsPropertyStart(c) {
      var j := i + 1;
      while j < |s| && IsWordChar(s[j])
        invariant i < j <= |s|
        invariant WordRunEnd(s, j) == WordRunEnd(s, i + 1)
        decreases |s| - j
      {
        j := j + 1;
      }
      t := Some(Token(Property(s[i..j]), i, j));
    } else {
      match Structural(c)
      case Some(l) => t := Some(Token(l, i, i + 1));
      case None => t := None;
    }
  }

  /** The scanner: a cursor moves through the pattern, cutting one token at a
      time, and stops at the first character no token can start with. */
  method Tokenize(s: string) returns (r: Result<seq<Token>, LexError>)
    ensures r == Lex(s)
  {
    var tokens: seq<Token> := [];
    var i := 0;
    if Lex(s).Ok? {
      assert [] + Lex(s).value == Lex(s).value;
    }
    while i < |s|
      invariant i <= |s|
      invariant Lex(s) == Prepend(tokens, LexFrom(Metacharacters, s, i))
      decreases |s| - i
    {
      var next := ScanToken(s, i);
      if next.None? {
        assert LexFrom(Metacharacters, s, i) == Err(LexError(i, s[i]));
        return Err(LexError(i, s[i]));
      }
      var t := next.value;
      var after := LexFrom(Metacharacters, s, t.end);
      if after.Ok? {
        assert tokens + ([t] + after.value) == (tokens + [t]) + after.value;
      }
      tokens := tokens + [t];
      i := t.end;
    }
    assert tokens + [] == tokens;
    r := Ok(tokens);
  }
}
