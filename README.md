# regexmachina parser, modelled in Dafny

This project models `regexmachina/parser.py`. That file has two parts:

- `RegexLexer` cuts a pattern's text into tokens: `METACHARACTER`, `INTEGER`, `PROPERTY`, and the single-character tokens `|`, `[`, `]`, `{`, `}` and `,`.
- `RegexParser` reads those tokens with the grammar `expression = term { "|" term }`, `term = factor { factor }` and `factor = atom [ METACHARACTER ]`. An atom is a `PROPERTY`, a bracketed property set, `{ INTEGER [ "," ] }` or `{ INTEGER "," INTEGER }`.

Files and modules:

- `wrappers.dfy` (`Wrappers`): `Option` and `Result`.
- `lexer.dfy` (`RegexLexer`):
  - lexemes, tokens and lexical errors;
  - `Recognizes` and `Tiles`, which define what a valid token and a valid tokenisation are;
  - the scanner as the function `LexFrom` and as the loop method `Tokenize`, each proved against that definition.
- `syntax.dfy` (`RegexSyntax`): the tree the grammar describes (`Expression`, `Term`, `Factor`, `Atom`).
  - `Render` writes a tree back as the lexemes that spell it.
  - `Canonical` removes the optional comma of `{ INTEGER , }`.
- `parser.dfy` (`RegexParser`):
  - one recursive-descent function per production, each returning the tree and the lexemes left, or the point where it got stuck;
  - `Parse`, which turns a stuck point into an error with its token offset, the token found and the token types expected.
- `parser_proofs.dfy` (`RegexParserProofs`): the parser against `Render`, in both directions.
  - Every well-formed tree is parsed back from its spelling.
  - Every parsed tree spells what it was parsed from, up to `Canonical`.
- `pattern.dfy` (`RegexPattern`):
  - the lexer and parser chained on a pattern's text;
  - concrete examples;
  - what a parsed tree can contain;
  - the number of alternatives;
  - the finding about the METACHARACTER class.

`ParsePatternWith(meta, s)` takes the METACHARACTER class as a parameter. `ParsePattern` uses `{* ? + ^}`, the class with the comma removed. `ParsePatternAsWritten` uses the class exactly as line 7 writes it, `{* , ? + ^}`. See "## Findings".

The rules are read as written, even where their evident intent differs:

- **A term is one or more factors** (`factor { factor }` at parser.py:29), never zero.
- **A METACHARACTER is one character.** The class at line 7 is a bracket expression, so `*?` is two tokens, although `\*\?` and `\+\?` in it suggest lazy quantifiers were meant. `a*?` is therefore a syntax error (`ExampleLazyQuantifierRejected`).

## Model

| member | source | states |
|---|---|---|
| RegexLexer.DecimalDigits | regexmachina/parser.py:9-12 | the decimal spelling of a natural number is a non-empty run of digits, with no leading `0` once the number has two digits |
| RegexLexer.DecimalRoundTrip | regexmachina/parser.py:9-12 | `int()` of the decimal spelling of n gives back n |
| RegexLexer.LeadingZeroIgnored | regexmachina/parser.py:9-12 | a leading `0` does not change an INTEGER's value |
| RegexLexer.DigitChar | regexmachina/parser.py:9 | proof helper: each value 0-9 has a digit character that spells it |
| RegexLexer.DecimalValue | regexmachina/parser.py:11 | `int()` of a run of digits is below 10 to the power of its length, and at least 10 to the power of its length minus one when it has no leading zero |
| RegexLexer.DigitRunEnd | regexmachina/parser.py:9 | the INTEGER rule takes the longest run of digits: all digits up to the end, and the next character is not a digit |
| RegexLexer.WordRunEnd | regexmachina/parser.py:15 | the PROPERTY rule takes the longest run of word characters |
| RegexLexer.NextToken | regexmachina/parser.py:6-17 | the token at a position is one that the lexer rules recognize there; there is none exactly when no rule can start at that character |
| RegexLexer.LexFrom | regexmachina/parser.py:6-17 | on success the tokens tile the rest of the text; on failure the error names the first character no rule can start, and its position |
| RegexLexer.RecognizesUnique | regexmachina/parser.py:7-17 | at most one token is recognized at a position: the rules' first characters are disjoint and each takes a maximal run |
| RegexLexer.LexComplete | regexmachina/parser.py:6-17 | any tiling of the text by recognized tokens is the lexer's output, so tokenisation is unique |
| RegexLexer.TiledCharsCanStart | regexmachina/parser.py:6-17 | in a text that can be tiled, every character can start a token |
| RegexLexer.Lex | regexmachina/parser.py:6-17 | on success the tokens tile the whole text; on failure the error names a character no rule can start, with its position, and every character before it can start a token |
| RegexLexer.LexTotal | regexmachina/parser.py:6-17 | when every character can start a token, lexing succeeds |
| RegexLexer.LexSucceedsIff | regexmachina/parser.py:6-17 | lexing succeeds if and only if every character can start a token |
| RegexLexer.LexIsTheTiling | regexmachina/parser.py:6-17 | `Lex(s) == Ok(ts)` if and only if `ts` tiles `s` |
| RegexLexer.ScanToken | regexmachina/parser.py:7-17 | the scanning step returns the token the lexer specification gives at that position |
| RegexLexer.Tokenize | regexmachina/parser.py:6-17 | the cursor loop returns exactly the lexer specification's result |
| RegexSyntax.Properties | regexmachina/parser.py:45 | a property set is spelled as one PROPERTY token per name, in order |
| RegexSyntax.CanonicalKeepsPipes | regexmachina/parser.py:25 | proof helper: removing optional commas keeps every `\|` |
| RegexSyntax.CanonicalKeeps | regexmachina/parser.py:50 | proof helper: removing optional commas adds no lexeme |
| RegexSyntax.CanonicalAppend | regexmachina/parser.py:50 | proof helper: comma removal distributes over a concatenation that does not split a `{ INTEGER , }` group |
| RegexSyntax.PipeCountAppend | regexmachina/parser.py:25 | proof helper: the `\|` count of a concatenation is the sum of the counts |
| RegexSyntax.TermHasNoPipe | regexmachina/parser.py:29-57 | a term's spelling holds no `\|` |
| RegexSyntax.AtomHasNoPipe | regexmachina/parser.py:41-57 | an atom's spelling holds no `\|` |
| RegexSyntax.NoPipeInProperties | regexmachina/parser.py:45 | a property set's names hold no `\|` |
| RegexSyntax.RenderPipeCount | regexmachina/parser.py:25-27 | a tree with n terms is spelled with n - 1 `\|` |
| RegexSyntax.AlternativesPipeCount | regexmachina/parser.py:25 | each `"\|" term` repetition contributes exactly one `\|` |
| RegexParser.ParseNames | regexmachina/parser.py:45 | the property set takes the longest run of PROPERTY tokens and stops at the first other token |
| RegexParser.ParsePropertySet | regexmachina/parser.py:45-47 | `[` property_set `]` consumes input, gives a property set, and on error never lists as expected the type it found |
| RegexParser.ParseRepetition | regexmachina/parser.py:49-57 | a repetition's minimum is the INTEGER right after `{`; it consumes input, or it fails without listing the type it found |
| RegexParser.ParseAtom | regexmachina/parser.py:41-57 | the first lexeme alone picks the alternative: PROPERTY gives a property atom, `[` a property set, `{` a repetition; anything else is an error expecting PROPERTY, `[` or `{` |
| RegexParser.ParseFactor | regexmachina/parser.py:33-35 | a factor is the atom parsed at that point, and it has a quantifier exactly when a METACHARACTER follows the atom |
| RegexParser.ParseFactors | regexmachina/parser.py:29 | `{ factor }` stops only where no atom can start, and after an unquantified factor no METACHARACTER remains |
| RegexParser.ParseTerm | regexmachina/parser.py:29-31 | a term has at least one factor and stops only where no atom can start |
| RegexParser.ParseAlternatives | regexmachina/parser.py:25 | `{ "\|" term }` stops only at a lexeme that is not `\|` |
| RegexParser.ParseExpression | regexmachina/parser.py:25-27 | an expression stops only at a lexeme that is neither `\|` nor an atom start, and after an unquantified last factor no METACHARACTER follows |
| RegexParser.Parse | regexmachina/parser.py:20-57 | a syntax error's offset is within the tokens, it reports the token at that offset (or end of input), and it never lists that token's type as expected |
| RegexParser.ExpectedAfter | regexmachina/parser.py:25-33 | a lexeme's type is among those expected after a complete expression if and only if the lexeme is `\|`, starts an atom, or is a METACHARACTER after an unquantified last factor |
| RegexParserProofs.NamesParse | regexmachina/parser.py:45 | the spelling of a list of names is parsed back to that list |
| RegexParserProofs.RepetitionParses | regexmachina/parser.py:49-57 | the spelling of `{n}` and of `{n,m}` after the `{` is parsed back to the same repetition, and so is `{n,}` when there is no maximum |
| RegexParserProofs.OptionalCommaParses | regexmachina/parser.py:50 | `n , }` after the `{` is a repetition with minimum n and no maximum, and leaves what follows untouched |
| RegexParserProofs.AtomParses | regexmachina/parser.py:41-57 | every atom is parsed back from its spelling |
| RegexParserProofs.FactorParses | regexmachina/parser.py:33 | every factor is parsed back from its spelling when no METACHARACTER follows an unquantified atom |
| RegexParserProofs.FactorsParse | regexmachina/parser.py:29 | a sequence of factors is parsed back from its spelling when what follows cannot extend it |
| RegexParserProofs.TermParses | regexmachina/parser.py:29 | a term with at least one factor is parsed back from its spelling |
| RegexParserProofs.AlternativesParse | regexmachina/parser.py:25 | the `"\|" term` repetitions are parsed back from their spelling |
| RegexParserProofs.ParseRender | regexmachina/parser.py:25-57 | every well-formed tree is parsed back from its spelling, consuming all of it |
| RegexParserProofs.RepetitionSound | regexmachina/parser.py:49-57 | a repetition consumes exactly `n }`, `n , }` (both with no maximum) or `n , m }` (maximum m) |
| RegexParserProofs.CanonicalRepetition | regexmachina/parser.py:49-57 | the three braced forms spell their repetition once the optional comma is removed |
| RegexParserProofs.AtomSound | regexmachina/parser.py:41-57 | a parsed atom spells what it consumed, up to the optional comma |
| RegexParserProofs.FactorSound | regexmachina/parser.py:33 | a parsed factor spells what it consumed, up to the optional comma |
| RegexParserProofs.FactorsSound | regexmachina/parser.py:29 | parsed factors spell what they consumed, up to the optional comma |
| RegexParserProofs.TermSound | regexmachina/parser.py:29 | a parsed term spells what it consumed, up to the optional comma |
| RegexParserProofs.AlternativesSound | regexmachina/parser.py:25 | the parsed `"\|" term` repetitions have one or more factors each, and spell what they consumed |
| RegexParserProofs.ExpressionSound | regexmachina/parser.py:25-27 | a parsed expression is well formed (at least one term, every term at least one factor), and spells what it consumed |
| RegexParserProofs.ExpressionFollows | regexmachina/parser.py:25-57 | wherever the parser succeeds on lexemes with every optional comma removed, it succeeds on the lexemes as written, with the same tree |
| RegexParserProofs.ParseSpelling | regexmachina/parser.py:25-57 | every spelling of a well-formed tree, with or without the optional comma of each `{ INTEGER , }`, is parsed to that tree, consuming all of it |
| RegexParserProofs.RenderParse | regexmachina/parser.py:25-57 | a tree parsed from a whole token sequence is well formed and spells that sequence, up to the optional comma |
| RegexParserProofs.PrefixSpells | regexmachina/parser.py:25-27 | when the expression stops before the end, its tree is well formed and spells the lexemes before the stop, up to the optional comma |
| RegexParserProofs.AlternativesCount | regexmachina/parser.py:25-27 | a whole parse has one more term than there are `\|` tokens |
| RegexPattern.ParsePatternWith | regexmachina/parser.py:6-57 | a lexical error names the first character no rule can start, with its position; without one, every character can start a token; a parsed tree is well formed |
| RegexPattern.ParsePattern | regexmachina/parser.py:6-57 | with the corrected class, a parsed pattern has one more term than its text has `\|` characters |
| RegexPattern.ParsePatternAsWritten | regexmachina/parser.py:7 | with the class as written, no parsed pattern holds a repetition with a maximum |
| RegexPattern.ParseSpells | regexmachina/parser.py:20-57 | a successful parse gives a well-formed tree that spells the tokens' lexemes, up to the optional comma |
| RegexPattern.ParseAcceptsSpelling | regexmachina/parser.py:20-57 | tokens whose lexemes spell a well-formed tree, with or without the optional comma of each `{ INTEGER , }`, parse to that tree |
| RegexPattern.ParseAcceptsExactly | regexmachina/parser.py:20-57 | `Parse` accepts tokens as a tree if and only if the tree is well formed and the tokens spell it, up to the optional comma |
| RegexPattern.ParsesTo | regexmachina/parser.py:6-57 | a text tiled by the spelling of a well-formed tree parses to that tree |
| RegexPattern.LexedAs | regexmachina/parser.py:6-57 | the pipeline on a tiled text is the parser on its tokens |
| RegexPattern.ParseLeftover | regexmachina/parser.py:25-27 | a parse that ends early reports the offset of the first token left, and the types that could have continued the expression |
| RegexPattern.ParseStuckAt | regexmachina/parser.py:20-57 | a parse that gets stuck reports the offset where it stopped and what it expected there |
| RegexPattern.ExampleStarQuestionIsTwoTokens | regexmachina/parser.py:7 | `*?` is two METACHARACTER tokens |
| RegexPattern.ExampleAtSignIsLexError | regexmachina/parser.py:6-17 | `@` is a lexical error at position 0 |
| RegexPattern.ExampleProperty | regexmachina/parser.py:15-17 | `ab` is one PROPERTY atom |
| RegexPattern.ExampleAlternation | regexmachina/parser.py:25-27 | `a\|b\|c` is three terms in source order |
| RegexPattern.ExampleQuantifier | regexmachina/parser.py:33 | `a*` is one factor with quantifier `*` |
| RegexPattern.QuantifiedThenMetacharacter | regexmachina/parser.py:33 | a factor takes at most one METACHARACTER; a second one is left over |
| RegexPattern.ExpectedAfterQuantified | regexmachina/parser.py:25-33 | proof helper: after a quantified factor only `\|` or an atom start may follow |
| RegexPattern.ExampleLazyQuantifierRejected | regexmachina/parser.py:33-35 | `a*?` is a syntax error at the `?` (token 2), expecting `\|` or an atom start |
| RegexPattern.ExampleRepetition | regexmachina/parser.py:50 | `{2}` is a repetition with minimum 2 and no maximum |
| RegexPattern.OpenRepetitionParses | regexmachina/parser.py:50 | `{ n , }` is a repetition with minimum n and no maximum |
| RegexPattern.ExampleOpenRepetition | regexmachina/parser.py:50 | `{2,}` is a repetition with minimum 2 and no maximum |
| RegexPattern.UnclosedRepetitionStuck | regexmachina/parser.py:55 | `{ n , m` without `}` is stuck at the end, expecting `}` |
| RegexPattern.ExampleUnclosedRepetition | regexmachina/parser.py:55 | `{2,5` is a syntax error at end of input (offset 4), expecting `}` |
| RegexPattern.BoundedTextTiles | regexmachina/parser.py:7-12 | the text `{n,m}` lexes as `{`, INTEGER n, the comma, INTEGER m, `}`, where the comma is a METACHARACTER when the class holds it |
| RegexPattern.BoundedRepetitionParses | regexmachina/parser.py:55-57 | with the corrected class, `{n,m}` is a repetition with minimum n and maximum m, for every n and m |
| RegexPattern.BoundedRepetitionRejectedAsWritten | regexmachina/parser.py:7 | with the class as written, `{n,m}` is a syntax error at its comma, expecting `,` or `}`, for every n and m |
| RegexPattern.CommaMetacharacterStuck | regexmachina/parser.py:49-57 | after `{ INTEGER`, a METACHARACTER comma is neither `,` nor `}`, so the repetition is stuck there |
| RegexPattern.RepetitionStuckAfterMinimum | regexmachina/parser.py:49-57 | after `{ INTEGER`, any lexeme but `,` or `}` stops the repetition, expecting `,` or `}` |
| RegexPattern.TokensFit | regexmachina/parser.py:7-17 | every lexeme the lexer produces fits its rule: quantifiers are in the METACHARACTER class, names are PROPERTY words, and a structural comma appears only when the class does not claim `,` |
| RegexPattern.TreeFitsFromSpelling | regexmachina/parser.py:25-57 | a tree whose spelling fits the lexer rules fits them itself |
| RegexPattern.PatternParsed | regexmachina/parser.py:6-57 | a parsed pattern comes from a tiling of the text whose lexemes the parser consumed completely |
| RegexPattern.PatternFits | regexmachina/parser.py:6-57 | a parsed pattern is well formed, and every quantifier, name and bounded repetition in it is one the lexer can produce |
| RegexPattern.BoundedRepetitionUnreachable | regexmachina/parser.py:7 | with any class that claims `,`, as line 7's does, no parsed pattern holds a repetition with a maximum |
| RegexPattern.CommaQuantifierAsWritten | regexmachina/parser.py:7 | with the class as written, `a,` is `a` quantified by `,` |
| RegexPattern.PipesInTiling | regexmachina/parser.py:6-25 | the `\|` tokens of a tiling are exactly the `\|` characters of the text |
| RegexPattern.PatternAlternatives | regexmachina/parser.py:25-27 | with any class that does not claim `\|`, a parsed pattern has one more term than its text has `\|` characters |

## Left out

- The sly framework (parser.py:1-3, the `@_` decorators, `Token` and `YaccProduction` objects, and LALR table generation) is not modelled. The lexer is a hand-written scanner and the parser is recursive descent.
- The production `atom = expression` (parser.py:37-39) is left out. With no delimiter around it, the grammar is cyclic: atom, expression, term, factor, atom. A parser containing it would not terminate.
- `property_set` (parser.py:45) is never defined. The model assumes it is zero or more PROPERTY tokens.
- The action bodies are `pass` stubs (parser.py:17, 31, 35, 39, 43, 47, 52, 57). The model builds trees from the grammar's shape instead, and claims nothing beyond that shape.
- At parser.py:27, sly's `p[1]` holds (`"|"`, term) pairs. The model keeps only the terms, in order.
- Neither class declares `tokens`, which sly needs to build the lexer and the parser, and the characters `|`, `[`, `]`, `{`, `}` and `,` are used as literals in the grammar without a `literals` declaration. The model supplies the whole token set: METACHARACTER, INTEGER, PROPERTY and these six single-character tokens.
- Whitespace, and every other character no rule can start, is a lexical error (`LexError`). The source declares no `ignore` set.
- Word characters (`\w`, parser.py:15) are ASCII letters, digits and `_`. Unicode categories are not modelled.
- RegexParser.Parse: its contract does not state that the error offset is the first token no parse could accept, nor that the expected set is every type that could have been accepted there; when the expression stops early, only the partial result `PrefixSpells` is proved. Which token sequences succeed, and with which tree, is stated exactly by `ParseAcceptsExactly`. The expected sets never include end of input, and an error at end of input carries no token.
- sly's default error recovery (report the error, discard tokens, resume parsing) is not modelled: the model stops at the first error and returns it.
- RegexLexer.NextToken, RegexLexer.LexFrom, RegexLexer.Tokenize, RegexPattern.ExampleProperty: the PROPERTY action at parser.py:16-17 is `pass`, so it returns None and sly drops the token. The model keeps every PROPERTY token, with its text, as the grammar's `PROPERTY` atom (parser.py:41) needs it; as written, no PROPERTY token would ever reach the parser.
- RegexParser.ParseRepetition: like the source, it does not check that the maximum is at least the minimum.
- Token positions are character offsets. sly's line numbers are not modelled.

## Findings

| source | as written | input that shows it | evidently intended | confidence | as-written member | corrected member |
|---|---|---|---|---|---|---|
| regexmachina/parser.py:7 | the METACHARACTER class `[\*,\*\?,\+,\+\?,\,\^]` uses commas as if they separated alternatives, so `,` is itself a METACHARACTER | `{2,5}`: the comma lexes as METACHARACTER, and the parse stops at token 2 expecting `,` or `}`. No input at all yields `{ INTEGER "," INTEGER }` or `{ INTEGER "," }`, and `a,` parses as `a` quantified by `,` | the comma of the repetition forms at parser.py:50 and parser.py:55 is the structural `","`, so `{2,5}` is a repetition from 2 to 5 | not executed | RegexPattern.BoundedRepetitionRejectedAsWritten | RegexPattern.BoundedRepetitionParses |
