/**
  The abstract syntax the grammar of `RegexParser` (regexmachina/parser.py)
  describes, and the token spelling of each node.

  `Render` writes a tree back as the lexemes that spell it; it is the
  reference the parser is proved against in both directions.
*/
module RegexSyntax {
  import opened Wrappers
  import opened RegexLexer

  /** `PROPERTY`, `"[" property_set "]"`, and the two `"{" ... "}"` forms.
      A property set is taken to be a plain sequence of property names. */
  datatype Atom =
    | PropertyAtom(name: string)
    | PropertySet(members: seq<string>)
    | Repetition(min: nat, max: Option<nat>)

  /** `atom [ METACHARACTER ]` */
  datatype Factor = Factor(atom: Atom, quantifier: Option<char>)

  /** `factor { factor }` */
  datatype Term = Term(factors: seq<Factor>)

  /** `term { "|" term }`: the terms, in source order. */
  datatype Expression = Expression(alternatives: seq<Term>)

  /** The shape every parsed tree has: at least one term, and at least one
      factor in each term. */
  predicate WellFormed(e: Expression)
  {
    && |e.alternatives| >= 1
    && forall k :: 0 <= k < |e.alternatives| ==> |e.alternatives[k].factors| >= 1
  }

  function Properties(names: seq<string>): (ls: seq<Lexeme>)
    ensures |ls| == |names|
    ensures forall k :: 0 <= k < |names| ==> ls[k] == Property(names[k])
  {
    if names == [] then [] else [Property(names[0])] + Properties(names[1..])
  }

  /** An open repetition is written without the optional comma. */
  function RenderAtom(a: Atom): (ls: seq<Lexeme>)
  {
    match a
    case PropertyAtom(name) => [Property(name)]
    case PropertySet(members) => [LBracket] + Properties(members) + [RBracket]
    case Repetition(min, None) => [LBrace, Integer(min), RBrace]
    case Repetition(min, Some(max)) => [LBrace, Integer(min), Comma, Integer(max), RBrace]
  }

  function RenderFactor(f: Factor): (ls: seq<Lexeme>)
  {
    match f.quantifier
    case None => RenderAtom(f.atom)
    case Some(q) => RenderAtom(f.atom) + [Metacharacter(q)]
  }

  function RenderFactors(fs: seq<Factor>): (ls: seq<Lexeme>)
  {
    if fs == [] then [] else RenderFactor(fs[0]) + RenderFactors(fs[1..])
  }

  function RenderTerm(t: Term): (ls: seq<Lexeme>)
  {
    RenderFactors(t.factors)
  }

  /** The `"|" term` repetitions that follow the first term. */
  function RenderAlternatives(ts: seq<Term>): (ls: seq<Lexeme>)
  {
    if ts == [] then [] else [Pipe] + RenderTerm(ts[0]) + RenderAlternatives(ts[1..])
  }

  function Render(e: Expression): (ls: seq<Lexeme>)
  {
    if e.alternatives == [] then []
    else RenderTerm(e.alternatives[0]) + RenderAlternatives(e.alternatives[1..])
  }

  /** The lexemes start with `{ INTEGER , }`, an open repetition written
      with its optional comma. */
  predicate OpenWithComma(ls: seq<Lexeme>)
  {
    |ls| >= 4 && ls[0] == LBrace && ls[1].Integer? && ls[2] == Comma && ls[3] == RBrace
  }

  /** The lexemes with every `{ INTEGER , }` written `{ INTEGER }`: the one
      difference between two spellings of the same tree. */
  function Canonical(ls: seq<Lexeme>): (c: seq<Lexeme>)
    decreases |ls|
  {
    if ls == [] then []
    else if OpenWithComma(ls) then [LBrace, ls[1], RBrace] + Canonical(ls[4..])
    else [ls[0]] + Canonical(ls[1..])
  }

  /** The lexemes do not end inside a `{ INTEGER , }` group, so none spans a
      split after them. */
  predicate EndsClean(c: seq<Lexeme>)
  {
    c == [] || !(c[|c| - 1] == LBrace || c[|c| - 1].Integer? || c[|c| - 1] == Comma)
  }

  function PipeCount(ls: seq<Lexeme>): (n: nat)
  {
    if ls == [] then 0 else (if ls[0] == Pipe then 1 else 0) + PipeCount(ls[1..])
  }

  lemma {:induction false} PipeCountAppend(a: seq<Lexeme>, b: seq<Lexeme>)
    ensures PipeCount(a + b) == PipeCount(a) + PipeCount(b)
  {
    if a != [] {
      assert (a + b)[1..] == a[1..] + b;
      PipeCountAppend(a[1..], b);
    } else {
      assert a + b == b;
    }
  }

  /** A `{ INTEGER , }` group holds no `|`. */
  lemma OpenGroupHasNoPipe(ls: seq<Lexeme>)
    requires OpenWithComma(ls)
    ensures PipeCount(ls) == PipeCount(ls[4..])
  {
    assert ls[1..][1..] == ls[2..] && ls[2..][1..] == ls[3..] && ls[3..][1..] == ls[4..];
    assert PipeCount(ls[3..]) == PipeCount(ls[4..]);
    assert PipeCount(ls[2..]) == PipeCount(ls[3..]);
    assert PipeCount(ls[1..]) == PipeCount(ls[2..]);
  }

  /** Dropping optional commas leaves every `|` in place. */
  lemma {:induction false} CanonicalKeepsPipes(ls: seq<Lexeme>)
    ensures PipeCount(Canonical(ls)) == PipeCount(ls)
    decreases |ls|
  {
    if ls != [] {
      if OpenWithComma(ls) {
        CanonicalKeepsPipes(ls[4..]);
        OpenGroupHasNoPipe(ls);
        PipeCountAppend([LBrace, ls[1], RBrace], Canonical(ls[4..]));
        assert PipeCount([LBrace, ls[1], RBrace]) == 0 by {
          assert PipeCount([RBrace]) == 0;
          assert PipeCount([ls[1], RBrace]) == 0;
        }
      } else {
        CanonicalKeepsPipes(ls[1..]);
        PipeCountAppend([ls[0]], Canonical(ls[1..]));
      }
    }
  }

  /** Whatever `Canonical` keeps was there before. */
  lemma {:induction false} CanonicalKeeps(ls: seq<Lexeme>, l: Lexeme)
    requires l in Canonical(ls)
    ensures l in ls
    decreases |ls|
  {
    if OpenWithComma(ls) {
      if l !in [LBrace, ls[1], RBrace] {
        CanonicalKeeps(ls[4..], l);
        assert ls == ls[..4] + ls[4..];
      } else {
        assert l == ls[0] || l == ls[1] || l == ls[3];
      }
    } else if ls != [] && l != ls[0] {
      CanonicalKeeps(ls[1..], l);
    }
  }

  /** Canonical distributes over a split that does not cut a
      `{ INTEGER , }` group. */
  lemma {:induction false} CanonicalAppend(a: seq<Lexeme>, b: seq<Lexeme>)
    requires EndsClean(a)
    ensures Canonical(a + b) == Canonical(a) + Canonical(b)
    decreases |a|
  {
    if a == [] {
      assert a + b == b;
    } else if OpenWithComma(a) {
      var group := [LBrace, a[1], RBrace];
      calc {
        Canonical(a + b);
        == { OpenGroupAppend(a, b); }
        group + Canonical(a[4..] + b);
        == { EndsCleanTail(a, 4); CanonicalAppend(a[4..], b); }
        group + (Canonical(a[4..]) + Canonical(b));
        ==
        (group + Canonical(a[4..])) + Canonical(b);
      }
    } else {
      calc {
        Canonical(a + b);
        == { PlainHeadAppend(a, b); }
        [a[0]] + Canonical(a[1..] + b);
        == { EndsCleanTail(a, 1); CanonicalAppend(a[1..], b); }
        [a[0]] + (Canonical(a[1..]) + Canonical(b));
        ==
        ([a[0]] + Canonical(a[1..])) + Canonical(b);
      }
    }
  }

  lemma EndsCleanTail(a: seq<Lexeme>, k: nat)
    requires EndsClean(a) && k <= |a|
    ensures EndsClean(a[k..])
  {
    if k < |a| {
      assert a[k..][|a| - k - 1] == a[|a| - 1];
    }
  }

  lemma OpenGroupAppend(a: seq<Lexeme>, b: seq<Lexeme>)
    requires OpenWithComma(a)
    ensures Canonical(a + b) == [LBrace, a[1], RBrace] + Canonical(a[4..] + b)
  {
    assert OpenWithComma(a + b) && (a + b)[1] == a[1];
    assert (a + b)[4..] == a[4..] + b;
  }

  lemma PlainHeadAppend(a: seq<Lexeme>, b: seq<Lexeme>)
    requires a != [] && EndsClean(a) && !OpenWithComma(a)
    ensures Canonical(a + b) == [a[0]] + Canonical(a[1..] + b)
  {
    assert !OpenWithComma(a + b);
    assert (a + b)[1..] == a[1..] + b;
  }

  /** A term's spelling holds no `|`. */
  lemma {:induction false} TermHasNoPipe(fs: seq<Factor>)
    ensures PipeCount(RenderFactors(fs)) == 0
  {
    if fs != [] {
      var f := fs[0];
      TermHasNoPipe(fs[1..]);
      AtomHasNoPipe(f.atom);
      if f.quantifier.Some? {
        PipeCountAppend(RenderAtom(f.atom), [Metacharacter(f.quantifier.value)]);
      }
      PipeCountAppend(RenderFactor(f), RenderFactors(fs[1..]));
    }
  }

  /** An atom's spelling holds no `|`. */
  lemma AtomHasNoPipe(a: Atom)
    ensures PipeCount(RenderAtom(a)) == 0
  {
    match a
    case PropertySet(members) =>
      NoPipeInProperties(members);
      PipeCountAppend([LBracket] + Properties(members), [RBracket]);
      PipeCountAppend([LBracket], Properties(members));
    case PropertyAtom(name) =>
      assert PipeCount([Property(name)]) == PipeCount([]);
    case Repetition(min, None) =>
      assert PipeCount([RBrace]) == 0;
      assert PipeCount([Integer(min), RBrace]) == 0;
    case Repetition(min, Some(max)) =>
      assert PipeCount([RBrace]) == 0;
      assert PipeCount([Integer(max), RBrace]) == 0;
      assert PipeCount([Comma, Integer(max), RBrace]) == 0;
      assert PipeCount([Integer(min), Comma, Integer(max), RBrace]) == 0;
  }

  lemma {:induction false} NoPipeInProperties(names: seq<string>)
    ensures PipeCount(Properties(names)) == 0
  {
    if names != [] {
      NoPipeInProperties(names[1..]);
    }
  }

  /** A tree with n terms is spelled with n - 1 `|`. */
  lemma {:induction false} RenderPipeCount(e: Expression)
    requires WellFormed(e)
    ensures PipeCount(Render(e)) == |e.alternatives| - 1
  {
    TermHasNoPipe(e.alternatives[0].factors);
    AlternativesPipeCount(e.alternatives[1..]);
    PipeCountAppend(RenderTerm(e.alternatives[0]), RenderAlternatives(e.alternatives[1..]));
  }

  lemma {:induction false} AlternativesPipeCount(ts: seq<Term>)
    ensures PipeCount(RenderAlternatives(ts)) == |ts|
  {
    if ts != [] {
      TermHasNoPipe(ts[0].factors);
      AlternativesPipeCount(ts[1..]);
      PipeCountAppend([Pipe] + RenderTerm(ts[0]), RenderAlternatives(ts[1..]));
      PipeCountAppend([Pipe], RenderTerm(ts[0]));
    }
  }
}
