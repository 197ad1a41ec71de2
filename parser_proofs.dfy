/**
  What the parser of regexmachina/parser.py recognizes, stated against the
  spelling `Render` of the trees it builds: every well-formed tree is parsed
  back from its spelling, and every parsed tree spells the lexemes it was
  parsed from, up to the optional comma of `{ INTEGER , }`.
*/
module RegexParserProofs {
  import opened Wrappers
  import opened RegexLexer
  import opened RegexSyntax
  import opened RegexParser

  /** Nothing that follows can extend a term. */
  predicate Stops(ls: seq<Lexeme>)
  {
    ls == [] || (!StartsAtom(ls[0]) && !ls[0].Metacharacter?)
  }

  function Consumed(ls: seq<Lexeme>, rest: seq<Lexeme>): (prefix: seq<Lexeme>)
    requires IsSuffix(rest, ls)
  {
    ls[..|ls| - |rest|]
  }

  lemma HeadTail<T>(s: seq<T>)
    requires s != []
    ensures [s[0]] + s[1..] == s
  {
  }

  // ---------------------------------------------------------------------
  // From a tree to its lexemes and back.
  // ---------------------------------------------------------------------

  lemma {:induction false} NamesParse(names: seq<string>, rest: seq<Lexeme>)
    requires rest == [] || !rest[0].Property?
    ensures ParseNames(Properties(names) + rest) == (names, rest)
  {
    if names != [] {
      PropertiesCons(names, rest);
      NamesParse(names[1..], rest);
      assert [names[0]] + names[1..] == names;
    } else {
      assert Properties(names) + rest == rest;
    }
  }

  lemma PropertiesCons(names: seq<string>, rest: seq<Lexeme>)
    requires names != []
    ensures var ls := Properties(names) + rest;
      ls != [] && ls[0] == Property(names[0]) && ls[1..] == Properties(names[1..]) + rest
  {
    var t := Properties(names[1..]) + rest;
    assert Properties(names) + rest == [Property(names[0])] + t by {
      SeqAssoc([Property(names[0])], Properties(names[1..]), rest);
    }
    ConsParts(Property(names[0]), t);
  }

  lemma ConsParts<T>(x: T, t: seq<T>)
    ensures ([x] + t)[0] == x && ([x] + t)[1..] == t
  {
  }

  lemma PropertySetParses(names: seq<string>, rest: seq<Lexeme>)
    ensures ParsePropertySet(Properties(names) + ([RBracket] + rest)) == Ok((PropertySet(names), rest))
  {
    NamesParse(names, [RBracket] + rest);
    assert ([RBracket] + rest)[1..] == rest;
  }

  /** `{n}` and `{n,m}` after the `{` parse back to their repetition, and
      so does `{n,}`, the open repetition with its optional comma. */
  lemma RepetitionParses(min: nat, max: Option<nat>, rest: seq<Lexeme>)
    ensures var spelled := if max.None? then [Integer(min), RBrace] else [Integer(min), Comma, Integer(max.value), RBrace];
      ParseRepetition(spelled + rest) == Ok((Repetition(min, max), rest))
    ensures max.None? ==>
      ParseRepetition([Integer(min), Comma, RBrace] + rest) == Ok((Repetition(min, None), rest))
  {
    if max.None? {
      OptionalCommaParses(min, rest);
      ClosedRepetitionParses(min, rest);
    } else {
      RangeRepetitionParses(min, max.value, rest);
    }
  }

  lemma ClosedRepetitionParses(min: nat, rest: seq<Lexeme>)
    ensures ParseRepetition([Integer(min), RBrace] + rest) == Ok((Repetition(min, None), rest))
  {
    var ls := [Integer(min), RBrace] + rest;
    assert ls[1..] == [RBrace] + rest;
    assert ls[1..][1..] == rest;
  }

  lemma RangeRepetitionParses(min: nat, max: nat, rest: seq<Lexeme>)
    ensures ParseRepetition([Integer(min), Comma, Integer(max), RBrace] + rest) == Ok((Repetition(min, Some(max)), rest))
  {
    var ls := [Integer(min), Comma, Integer(max), RBrace] + rest;
    assert ls[1..] == [Comma, Integer(max), RBrace] + rest;
    assert ls[1..][1..] == [Integer(max), RBrace] + rest;
    assert ls[1..][1..][1..] == [RBrace] + rest;
    assert ls[1..][1..][1..][1..] == rest;
  }

  lemma OptionalCommaParses(min: nat, rest: seq<Lexeme>)
    ensures ParseRepetition([Integer(min), Comma, RBrace] + rest) == Ok((Repetition(min, None), rest))
  {
    var ls := [Integer(min), Comma, RBrace] + rest;
    assert ls[1..] == [Comma, RBrace] + rest;
    assert ls[1..][1..] == [RBrace] + rest;
    assert ls[1..][1..][1..] == rest;
  }

  lemma AtomParses(a: Atom, rest: seq<Lexeme>)
    ensures ParseAtom(RenderAtom(a) + rest) == Ok((a, rest))
  {
    match a
    case PropertyAtom(name) =>
      var ls := [Property(name)] + rest;
      assert ls[0] == Property(name);
      assert ls[1..] == rest;
    case PropertySet(names) =>
      PropertySetAtomParses(names, rest);
    case Repetition(min, max) =>
      RepetitionAtomParses(min, max, rest);
  }

  lemma PropertySetAtomParses(names: seq<string>, rest: seq<Lexeme>)
    ensures ParseAtom(RenderAtom(PropertySet(names)) + rest) == Ok((PropertySet(names), rest))
  {
    var ls := RenderAtom(PropertySet(names)) + rest;
    assert ls[0] == LBracket && ls[1..] == Properties(names) + ([RBracket] + rest) by {
      PropertySetSpelled(names, rest);
    }
    BracketAtom(ls);
    PropertySetParses(names, rest);
  }

  lemma PropertySetSpelled(names: seq<string>, rest: seq<Lexeme>)
    ensures RenderAtom(PropertySet(names)) + rest == [LBracket] + (Properties(names) + ([RBracket] + rest))
  {
  }

  lemma BracketAtom(ls: seq<Lexeme>)
    requires ls != [] && ls[0] == LBracket
    ensures ParseAtom(ls) == ParsePropertySet(ls[1..])
  {
  }

  lemma RepetitionAtomParses(min: nat, max: Option<nat>, rest: seq<Lexeme>)
    ensures ParseAtom(RenderAtom(Repetition(min, max)) + rest) == Ok((Repetition(min, max), rest))
  {
    var spelled := if max.None? then [Integer(min), RBrace] else [Integer(min), Comma, Integer(max.value), RBrace];
    var ls := [LBrace] + (spelled + rest);
    assert RenderAtom(Repetition(min, max)) + rest == ls;
    assert ls[0] == LBrace;
    assert ls[1..] == spelled + rest;
    RepetitionParses(min, max, rest);
  }

  lemma FactorParses(f: Factor, rest: seq<Lexeme>)
    requires f.quantifier.None? ==> !LeadsWithMetacharacter(rest)
    ensures ParseFactor(RenderFactor(f) + rest) == Ok((f, rest))
  {
    match f.quantifier
    case None =>
      AtomParses(f.atom, rest);
    case Some(q) =>
      assert RenderFactor(f) + rest == RenderAtom(f.atom) + ([Metacharacter(q)] + rest);
      AtomParses(f.atom, [Metacharacter(q)] + rest);
  }

  lemma RenderFactorStartsAtom(f: Factor)
    ensures RenderFactor(f) != [] && StartsAtom(RenderFactor(f)[0])
  {
  }

  /** One round of the `{ factor }` loop. */
  lemma FactorsStep(ls: seq<Lexeme>, f: Factor, mid: seq<Lexeme>, fs: seq<Factor>, rest: seq<Lexeme>)
    requires ls != [] && StartsAtom(ls[0])
    requires ParseFactor(ls) == Ok((f, mid))
    requires ParseFactors(mid) == Ok((fs, rest))
    ensures ParseFactors(ls) == Ok(([f] + fs, rest))
  {
  }

  /** What follows a factor's spelling inside a term never starts with a
      METACHARACTER. */
  lemma NoQuantifierAfter(fs: seq<Factor>, rest: seq<Lexeme>)
    requires Stops(rest)
    ensures !LeadsWithMetacharacter(RenderFactors(fs) + rest)
  {
    if fs == [] {
      assert RenderFactors(fs) + rest == rest;
    } else {
      RenderFactorStartsAtom(fs[0]);
      assert (RenderFactors(fs) + rest)[0] == RenderFactor(fs[0])[0];
    }
  }

  lemma FactorsSpelling(fs: seq<Factor>, rest: seq<Lexeme>)
    requires fs != []
    ensures RenderFactors(fs) + rest == RenderFactor(fs[0]) + (RenderFactors(fs[1..]) + rest)
    ensures var ls := RenderFactors(fs) + rest; ls != [] && StartsAtom(ls[0])
  {
    RenderFactorStartsAtom(fs[0]);
  }

  lemma {:induction false} FactorsParse(fs: seq<Factor>, rest: seq<Lexeme>)
    requires Stops(rest)
    ensures ParseFactors(RenderFactors(fs) + rest) == Ok((fs, rest))
  {
    if fs == [] {
      assert RenderFactors(fs) + rest == rest;
    } else {
      var ls := RenderFactors(fs) + rest;
      var after := RenderFactors(fs[1..]) + rest;
      assert ls == RenderFactor(fs[0]) + after && ls != [] && StartsAtom(ls[0]) by {
        FactorsSpelling(fs, rest);
      }
      assert ParseFactor(ls) == Ok((fs[0], after)) by {
        NoQuantifierAfter(fs[1..], rest);
        FactorParses(fs[0], after);
      }
      assert ParseFactors(after) == Ok((fs[1..], rest)) by {
        FactorsParse(fs[1..], rest);
      }
      FactorsStep(ls, fs[0], after, fs[1..], rest);
      HeadTail(fs);
    }
  }

  lemma TermStep(ls: seq<Lexeme>, f: Factor, mid: seq<Lexeme>, fs: seq<Factor>, rest: seq<Lexeme>)
    requires ParseFactor(ls) == Ok((f, mid))
    requires ParseFactors(mid) == Ok((fs, rest))
    ensures ParseTerm(ls) == Ok((Term([f] + fs), rest))
  {
  }

  lemma TermParses(t: Term, rest: seq<Lexeme>)
    requires t.factors != [] && Stops(rest)
    ensures ParseTerm(RenderTerm(t) + rest) == Ok((t, rest))
  {
    var fs := t.factors;
    var ls := RenderTerm(t) + rest;
    var after := RenderFactors(fs[1..]) + rest;
    assert ls == RenderFactor(fs[0]) + after by {
      FactorsSpelling(fs, rest);
    }
    assert ParseFactor(ls) == Ok((fs[0], after)) by {
      NoQuantifierAfter(fs[1..], rest);
      FactorParses(fs[0], after);
    }
    assert ParseFactors(after) == Ok((fs[1..], rest)) by {
      FactorsParse(fs[1..], rest);
    }
    TermStep(ls, fs[0], after, fs[1..], rest);
    HeadTail(fs);
  }

  lemma AlternativesStep(ls: seq<Lexeme>, t: Term, mid: seq<Lexeme>, ts: seq<Term>, rest: seq<Lexeme>)
    requires ls != [] && ls[0] == Pipe
    requires ParseTerm(ls[1..]) == Ok((t, mid))
    requires ParseAlternatives(mid) == Ok((ts, rest))
    ensures ParseAlternatives(ls) == Ok(([t] + ts, rest))
  {
  }

  lemma AlternativesSpelling(ts: seq<Term>, rest: seq<Lexeme>)
    requires ts != []
    ensures var ls := RenderAlternatives(ts) + rest;
      && ls != [] && ls[0] == Pipe
      && ls[1..] == RenderTerm(ts[0]) + (RenderAlternatives(ts[1..]) + rest)
  {
    assert RenderAlternatives(ts) + rest == [Pipe] + (RenderTerm(ts[0]) + (RenderAlternatives(ts[1..]) + rest));
  }

  /** Whatever follows a term's spelling in an expression's spelling stops
      the term. */
  lemma StopsAfterTerm(ts: seq<Term>, rest: seq<Lexeme>)
    requires Stops(rest)
    ensures Stops(RenderAlternatives(ts) + rest)
  {
    if ts == [] {
      assert RenderAlternatives(ts) + rest == rest;
    } else {
      AlternativesSpelling(ts, rest);
    }
  }

  lemma {:induction false} AlternativesParse(ts: seq<Term>, rest: seq<Lexeme>)
    requires forall k :: 0 <= k < |ts| ==> ts[k].factors != []
    requires Stops(rest) && (rest == [] || rest[0] != Pipe)
    ensures ParseAlternatives(RenderAlternatives(ts) + rest) == Ok((ts, rest))
  {
    if ts == [] {
      assert RenderAlternatives(ts) + rest == rest;
    } else {
      AlternativesParse(ts[1..], rest);
      AlternativesParseStep(ts, rest);
    }
  }

  /** One `"|" term` more: the induction step of `AlternativesParse`. */
  lemma {:induction false} AlternativesParseStep(ts: seq<Term>, rest: seq<Lexeme>)
    requires ts != [] && ts[0].factors != []
    requires Stops(rest) && (rest == [] || rest[0] != Pipe)
    requires ParseAlternatives(RenderAlternatives(ts[1..]) + rest) == Ok((ts[1..], rest))
    ensures ParseAlternatives(RenderAlternatives(ts) + rest) == Ok((ts, rest))
  {
    var ls := RenderAlternatives(ts) + rest;
    var after := RenderAlternatives(ts[1..]) + rest;
    assert ParseTerm(ls[1..]) == Ok((ts[0], after)) by {
      AlternativesSpelling(ts, rest);
      StopsAfterTerm(ts[1..], rest);
      TermParses(ts[0], after);
    }
    assert ls != [] && ls[0] == Pipe by {
      AlternativesSpelling(ts, rest);
    }
    AlternativesStep(ls, ts[0], after, ts[1..], rest);
    HeadTail(ts);
  }

  lemma ExpressionStep(ls: seq<Lexeme>, t: Term, mid: seq<Lexeme>, ts: seq<Term>, rest: seq<Lexeme>)
    requires ParseTerm(ls) == Ok((t, mid))
    requires ParseAlternatives(mid) == Ok((ts, rest))
    ensures ParseExpression(ls) == Ok((Expression([t] + ts), rest))
  {
  }

  /** Every well-formed tree is what the parser builds from its spelling. */
  lemma ParseRender(e: Expression)
    requires WellFormed(e)
    ensures ParseExpression(Render(e)) == Ok((e, []))
  {
    var alts := e.alternatives;
    var after := RenderAlternatives(alts[1..]) + [];
    assert ParseTerm(Render(e)) == Ok((alts[0], after)) by {
      assert Render(e) == RenderTerm(alts[0]) + after;
      StopsAfterTerm(alts[1..], []);
      TermParses(alts[0], after);
    }
    assert ParseAlternatives(after) == Ok((alts[1..], [])) by {
      AlternativesParse(alts[1..], []);
    }
    ExpressionStep(Render(e), alts[0], after, alts[1..], []);
    HeadTail(alts);
  }

  // ---------------------------------------------------------------------
  // From lexemes to a tree and back.
  // ---------------------------------------------------------------------

  lemma ConsumedSplit(ls: seq<Lexeme>, mid: seq<Lexeme>, rest: seq<Lexeme>)
    requires IsSuffix(mid, ls) && IsSuffix(rest, mid)
    ensures IsSuffix(rest, ls)
    ensures Consumed(ls, rest) == Consumed(ls, mid) + Consumed(mid, rest)
  {
    assert ls == Consumed(ls, mid) + mid;
    assert mid == Consumed(mid, rest) + rest;
  }

  lemma {:induction false} CanonicalWithoutComma(ls: seq<Lexeme>)
    requires Comma !in ls
    ensures Canonical(ls) == ls
  {
    if ls != [] {
      CanonicalWithoutComma(ls[1..]);
      assert [ls[0]] + ls[1..] == ls;
    }
  }

  /** The three spellings `ParseRepetition` accepts after the `{`. */
  lemma RepetitionSound(ls: seq<Lexeme>)
    requires ParseRepetition(ls).Ok?
    ensures var (a, rest) := ParseRepetition(ls).value;
      && a.Repetition?
      && var c := Consumed(ls, rest);
      || (a.max.None? && c == [Integer(a.min), RBrace])
      || (a.max.None? && c == [Integer(a.min), Comma, RBrace])
      || (a.max.Some? && c == [Integer(a.min), Comma, Integer(a.max.value), RBrace])
  {
    var (a, rest) := ParseRepetition(ls).value;
    if ls[1] == RBrace {
      assert Consumed(ls, rest) == ls[..2];
    } else if ls[2] == RBrace {
      assert Consumed(ls, rest) == ls[..3];
    } else {
      assert Consumed(ls, rest) == ls[..4];
    }
  }

  lemma CanonicalRepetition(a: Atom, c: seq<Lexeme>)
    requires a.Repetition?
    requires || (a.max.None? && c == [Integer(a.min), RBrace])
             || (a.max.None? && c == [Integer(a.min), Comma, RBrace])
             || (a.max.Some? && c == [Integer(a.min), Comma, Integer(a.max.value), RBrace])
    ensures RenderAtom(a) == Canonical([LBrace] + c)
  {
    var d := [LBrace] + c;
    if a.max.None? && c == [Integer(a.min), Comma, RBrace] {
      assert OpenWithComma(d) && d[4..] == [];
    } else {
      assert Canonical(d) == [LBrace] + Canonical(c) by {
        assert !OpenWithComma(d);
        assert d[1..] == c;
      }
      assert Canonical(c) == [Integer(a.min)] + Canonical(c[1..]);
      assert Canonical([RBrace]) == [RBrace] + Canonical([]);
      if a.max.Some? {
        var m := a.max.value;
        assert Canonical(c[1..]) == [Comma] + Canonical(c[2..]);
        assert c[2..] == [Integer(m), RBrace];
        assert Canonical([Integer(m), RBrace]) == [Integer(m)] + Canonical([RBrace]);
      }
    }
  }

  lemma AtomSound(ls: seq<Lexeme>)
    requires ParseAtom(ls).Ok?
    ensures var (a, rest) := ParseAtom(ls).value;
      && Consumed(ls, rest) != []
      && EndsClean(Consumed(ls, rest))
      && RenderAtom(a) == Canonical(Consumed(ls, rest))
  {
    var (a, rest) := ParseAtom(ls).value;
    match a
    case PropertyAtom(name) =>
      assert Consumed(ls, rest) == [Property(name)];
    case PropertySet(names) =>
      PropertySetSound(ls);
    case Repetition(_, _) =>
      RepetitionAtomSound(ls);
  }

  lemma PropertySetSound(ls: seq<Lexeme>)
    requires ParseAtom(ls).Ok? && ParseAtom(ls).value.0.PropertySet?
    ensures var (a, rest) := ParseAtom(ls).value;
      && Consumed(ls, rest) != []
      && EndsClean(Consumed(ls, rest))
      && RenderAtom(a) == Canonical(Consumed(ls, rest))
  {
    var (a, rest) := ParseAtom(ls).value;
    PropertySetConsumed(ls);
    CanonicalWithoutComma(Consumed(ls, rest));
  }

  /** A property set consumes `[`, its names and `]`. */
  lemma PropertySetConsumed(ls: seq<Lexeme>)
    requires ParseAtom(ls).Ok? && ParseAtom(ls).value.0.PropertySet?
    ensures var (a, rest) := ParseAtom(ls).value;
      Consumed(ls, rest) == [LBracket] + Properties(a.members) + [RBracket]
  {
    var (a, rest) := ParseAtom(ls).value;
    var (ns, r) := ParseNames(ls[1..]);
    assert ls[0] == LBracket && ParseAtom(ls) == ParsePropertySet(ls[1..]);
    assert ns == a.members && r != [] && r[0] == RBracket && rest == r[1..];
    var n := |ns|;
    assert Consumed(ls, rest) == ls[..n + 2];
    Bracketed(ls, n);
  }

  lemma Bracketed(ls: seq<Lexeme>, n: nat)
    requires n + 2 <= |ls|
    ensures ls[..n + 2] == [ls[0]] + ls[1..][..n] + [ls[1..][n]]
  {
    var w := [ls[0]] + ls[1..][..n] + [ls[1..][n]];
    assert |w| == n + 2;
    forall k | 0 <= k < n + 2
      ensures w[k] == ls[k]
    {
      if k == 0 {
      } else if k <= n {
        assert w[k] == ls[1..][..n][k - 1];
      } else {
        assert w[k] == ls[1..][n];
      }
    }
  }

  lemma RepetitionAtomSound(ls: seq<Lexeme>)
    requires ParseAtom(ls).Ok? && ParseAtom(ls).value.0.Repetition?
    ensures var (a, rest) := ParseAtom(ls).value;
      && Consumed(ls, rest) != []
      && EndsClean(Consumed(ls, rest))
      && RenderAtom(a) == Canonical(Consumed(ls, rest))
  {
    var (a, rest) := ParseAtom(ls).value;
    var c := Consumed(ls, rest);
    assert ParseRepetition(ls[1..]) == Ok((a, rest));
    RepetitionSound(ls[1..]);
    assert c == [LBrace] + Consumed(ls[1..], rest);
    CanonicalRepetition(a, Consumed(ls[1..], rest));
  }

  lemma FactorSound(ls: seq<Lexeme>)
    requires ParseFactor(ls).Ok?
    ensures var (f, rest) := ParseFactor(ls).value;
      && EndsClean(Consumed(ls, rest))
      && RenderFactor(f) == Canonical(Consumed(ls, rest))
  {
    var (f, rest) := ParseFactor(ls).value;
    var (a, mid) := ParseAtom(ls).value;
    AtomSound(ls);
    if f.quantifier.Some? {
      ConsumedSplit(ls, mid, rest);
      assert Consumed(mid, rest) == [Metacharacter(f.quantifier.value)];
      CanonicalAppend(Consumed(ls, mid), Consumed(mid, rest));
    }
  }

  lemma {:induction false} FactorsSound(ls: seq<Lexeme>)
    requires ParseFactors(ls).Ok?
    ensures var (fs, rest) := ParseFactors(ls).value;
      && EndsClean(Consumed(ls, rest))
      && RenderFactors(fs) == Canonical(Consumed(ls, rest))
    decreases |ls|
  {
    var (fs, rest) := ParseFactors(ls).value;
    if fs != [] {
      var (f, mid) := ParseFactor(ls).value;
      var more := ParseFactors(mid).value.0;
      assert fs == [f] + more;
      FactorSound(ls);
      FactorsSound(mid);
      SpelledConcat(ls, mid, rest, RenderFactor(f), RenderFactors(more));
      assert RenderFactors(fs) == RenderFactor(f) + RenderFactors(more) by {
        assert fs[1..] == more;
      }
    } else {
      assert Consumed(ls, rest) == [];
    }
  }

  lemma TermSound(ls: seq<Lexeme>)
    requires ParseTerm(ls).Ok?
    ensures var (t, rest) := ParseTerm(ls).value;
      && EndsClean(Consumed(ls, rest))
      && RenderTerm(t) == Canonical(Consumed(ls, rest))
  {
    var (t, rest) := ParseTerm(ls).value;
    var (f, mid) := ParseFactor(ls).value;
    var more := ParseFactors(mid).value.0;
    assert t.factors == [f] + more;
    FactorSound(ls);
    FactorsSound(mid);
    SpelledConcat(ls, mid, rest, RenderFactor(f), RenderFactors(more));
    assert RenderTerm(t) == RenderFactor(f) + RenderFactors(more) by {
      assert t.factors[1..] == more;
    }
  }

  /** Two consecutive consumed pieces spell the concatenation of their
      spellings. */
  lemma SpelledConcat(ls: seq<Lexeme>, mid: seq<Lexeme>, rest: seq<Lexeme>, x: seq<Lexeme>, y: seq<Lexeme>)
    requires IsSuffix(mid, ls) && IsSuffix(rest, mid)
    requires EndsClean(Consumed(ls, mid)) && x == Canonical(Consumed(ls, mid))
    requires EndsClean(Consumed(mid, rest)) && y == Canonical(Consumed(mid, rest))
    ensures IsSuffix(rest, ls)
    ensures EndsClean(Consumed(ls, rest)) && x + y == Canonical(Consumed(ls, rest))
  {
    ConsumedSplit(ls, mid, rest);
    EndsCleanAppend(Consumed(ls, mid), Consumed(mid, rest));
    CanonicalAppend(Consumed(ls, mid), Consumed(mid, rest));
  }

  lemma EndsCleanAppend(a: seq<Lexeme>, b: seq<Lexeme>)
    requires EndsClean(a) && EndsClean(b)
    ensures EndsClean(a + b)
  {
    if b == [] {
      assert a + b == a;
    }
  }

  lemma AlternativesInversion(ls: seq<Lexeme>)
    requires ParseAlternatives(ls).Ok? && ParseAlternatives(ls).value.0 != []
    ensures ls != [] && ls[0] == Pipe && ParseTerm(ls[1..]).Ok?
    ensures var mid := ParseTerm(ls[1..]).value.1;
      && ParseAlternatives(mid).Ok?
      && ParseAlternatives(ls).value.0 == [ParseTerm(ls[1..]).value.0] + ParseAlternatives(mid).value.0
      && ParseAlternatives(ls).value.1 == ParseAlternatives(mid).value.1
  {
  }

  /** The spelling of `"|" term { "|" term }` from the spellings of its
      parts. */
  lemma AlternativesSpelled(t: Term, more: seq<Term>, cb: seq<Lexeme>, cm: seq<Lexeme>)
    requires EndsClean(cb) && RenderTerm(t) == Canonical(cb)
    requires EndsClean(cm) && RenderAlternatives(more) == Canonical(cm)
    ensures EndsClean([Pipe] + (cb + cm))
    ensures RenderAlternatives([t] + more) == Canonical([Pipe] + (cb + cm))
  {
    PipeThenSpelled(cb, cm);
    RenderAlternativesCons(t, more);
  }

  /** A `|` followed by two clean pieces is clean and spelled piece by piece. */
  lemma PipeThenSpelled(cb: seq<Lexeme>, cm: seq<Lexeme>)
    requires EndsClean(cb) && EndsClean(cm)
    ensures EndsClean([Pipe] + (cb + cm))
    ensures Canonical([Pipe] + (cb + cm)) == [Pipe] + Canonical(cb) + Canonical(cm)
  {
    var c := cb + cm;
    assert EndsClean(c) by {
      EndsCleanAppend(cb, cm);
    }
    assert EndsClean([Pipe] + c) by {
      EndsCleanAppend([Pipe], c);
    }
    calc {
      Canonical([Pipe] + c);
      == { CanonicalCons(Pipe, c); }
      [Pipe] + Canonical(c);
      == { CanonicalAppend(cb, cm); }
      [Pipe] + (Canonical(cb) + Canonical(cm));
      == { SeqAssoc([Pipe], Canonical(cb), Canonical(cm)); }
      [Pipe] + Canonical(cb) + Canonical(cm);
    }
  }

  lemma SeqAssoc(x: seq<Lexeme>, y: seq<Lexeme>, z: seq<Lexeme>)
    ensures x + (y + z) == x + y + z
  {
  }

  lemma CanonicalCons(l: Lexeme, ls: seq<Lexeme>)
    requires l != LBrace
    ensures Canonical([l] + ls) == [l] + Canonical(ls)
  {
    assert ([l] + ls)[1..] == ls;
  }

  lemma RenderAlternativesCons(t: Term, more: seq<Term>)
    ensures RenderAlternatives([t] + more) == [Pipe] + RenderTerm(t) + RenderAlternatives(more)
  {
    assert ([t] + more)[1..] == more;
  }

  lemma PipeConsumed(ls: seq<Lexeme>, mid: seq<Lexeme>, rest: seq<Lexeme>)
    requires ls != [] && ls[0] == Pipe
    requires IsSuffix(mid, ls[1..]) && IsSuffix(rest, mid)
    ensures IsSuffix(rest, ls)
    ensures Consumed(ls, rest) == [Pipe] + (Consumed(ls[1..], mid) + Consumed(mid, rest))
  {
    ConsumedSplit(ls[1..], mid, rest);
    assert ls == [Pipe] + ls[1..];
  }

  lemma {:induction false} AlternativesSound(ls: seq<Lexeme>)
    requires ParseAlternatives(ls).Ok?
    ensures var (ts, rest) := ParseAlternatives(ls).value;
      && (forall k :: 0 <= k < |ts| ==> ts[k].factors != [])
      && EndsClean(Consumed(ls, rest))
      && RenderAlternatives(ts) == Canonical(Consumed(ls, rest))
    decreases |ls|
  {
    var (ts, rest) := ParseAlternatives(ls).value;
    if ts != [] {
      AlternativesInversion(ls);
      var (t, mid) := ParseTerm(ls[1..]).value;
      var more := ParseAlternatives(mid).value.0;
      TermSound(ls[1..]);
      AlternativesSound(mid);
      PipeConsumed(ls, mid, rest);
      AlternativesSpelled(t, more, Consumed(ls[1..], mid), Consumed(mid, rest));
    } else {
      assert Consumed(ls, rest) == [];
    }
  }

  lemma ExpressionSound(ls: seq<Lexeme>)
    requires ParseExpression(ls).Ok?
    ensures var (e, rest) := ParseExpression(ls).value;
      && WellFormed(e)
      && RenderTerm(e.alternatives[0]) + RenderAlternatives(e.alternatives[1..]) == Render(e)
      && Render(e) == Canonical(Consumed(ls, rest))
  {
    var (e, rest) := ParseExpression(ls).value;
    var (t, mid) := ParseTerm(ls).value;
    var more := ParseAlternatives(mid).value.0;
    assert e.alternatives[1..] == more;
    TermSound(ls);
    AlternativesSound(mid);
    SpelledConcat(ls, mid, rest, RenderTerm(t), RenderAlternatives(more));
  }

  /** The lexemes an expression consumed spell the tree it built: when the
      parse stops before the end, what comes before the stop is already a
      complete well-formed pattern. */
  lemma PrefixSpells(ls: seq<Lexeme>, e: Expression, rest: seq<Lexeme>)
    requires ParseExpression(ls) == Ok((e, rest))
    ensures |rest| <= |ls|
    ensures WellFormed(e) && Render(e) == Canonical(ls[..|ls| - |rest|])
  {
    ExpressionSound(ls);
  }

  /** Every tree the parser builds from a whole lexeme sequence is well
      formed and spells that sequence, up to the optional comma of an open
      repetition. */
  lemma RenderParse(ls: seq<Lexeme>, e: Expression)
    requires ParseExpression(ls) == Ok((e, []))
    ensures WellFormed(e)
    ensures Render(e) == Canonical(ls)
  {
    ExpressionSound(ls);
    assert Render(e) == Canonical(Consumed(ls, []));
    assert Consumed(ls, []) == ls by {
      assert ls[..|ls|] == ls;
    }
  }

  /** `expression` yields one term more than there are `|` tokens. */
  lemma AlternativesCount(ls: seq<Lexeme>, e: Expression)
    requires ParseExpression(ls) == Ok((e, []))
    ensures |e.alternatives| == 1 + PipeCount(ls)
  {
    RenderParse(ls, e);
    RenderPipeCount(e);
    CanonicalKeepsPipes(ls);
  }
  // ---------------------------------------------------------------------
  // Every spelling of a tree is accepted, with or without optional commas.
  // ---------------------------------------------------------------------

  /** `r` succeeds wherever `c`, the same production on the canonical
      lexemes, succeeds: with the same value, leaving lexemes whose canonical
      form is what `c` leaves. */
  predicate Follows<T(==)>(r: Parsed<T>, c: Parsed<T>)
  {
    c.Ok? ==> r.Ok? && r.value.0 == c.value.0 && Canonical(r.value.1) == c.value.1
  }

  lemma CanonicalHead(x: seq<Lexeme>)
    ensures Canonical(x) == [] <==> x == []
    ensures x != [] ==> Canonical(x)[0] == x[0]
  {
  }

  lemma CanonicalStep(x: seq<Lexeme>)
    requires x != [] && !OpenWithComma(x)
    ensures Canonical(x) == [x[0]] + Canonical(x[1..])
  {
  }

  lemma {:induction false} NamesFollow(x: seq<Lexeme>)
    ensures ParseNames(x).0 == ParseNames(Canonical(x)).0
    ensures Canonical(ParseNames(x).1) == ParseNames(Canonical(x)).1
    decreases |x|
  {
    CanonicalHead(x);
    if x != [] && x[0].Property? {
      CanonicalStep(x);
      NamesFollow(x[1..]);
      assert Canonical(x)[1..] == Canonical(x[1..]);
    }
  }

  lemma PropertySetFollows(x: seq<Lexeme>)
    ensures Follows(ParsePropertySet(x), ParsePropertySet(Canonical(x)))
  {
    NamesFollow(x);
    var r := ParseNames(x).1;
    CanonicalHead(r);
    if r != [] && r[0] == RBracket {
      CanonicalStep(r);
      assert Canonical(r)[1..] == Canonical(r[1..]);
    }
  }

  /** After a `{` that does not open `{ INTEGER , }`, the canonical
      lexemes are the same up to the `}`. */
  lemma RepetitionFollows(ls: seq<Lexeme>)
    requires ls != [] && ls[0] == LBrace && !OpenWithComma(ls)
    ensures Follows(ParseRepetition(ls[1..]), ParseRepetition(Canonical(ls[1..])))
  {
    var x := ls[1..];
    CanonicalHead(x);
    if x != [] && x[0].Integer? {
      CanonicalStep(x);
      var x1 := x[1..];
      assert Canonical(x)[1..] == Canonical(x1);
      CanonicalHead(x1);
      if x1 != [] && x1[0] == RBrace {
        CanonicalStep(x1);
        assert Canonical(x1)[1..] == Canonical(x1[1..]);
      } else if x1 != [] && x1[0] == Comma {
        CanonicalStep(x1);
        var x2 := x1[1..];
        assert Canonical(x1)[1..] == Canonical(x2);
        CanonicalHead(x2);
        assert x2 != [] ==> x2[0] != RBrace;
        if x2 != [] && x2[0].Integer? {
          CanonicalStep(x2);
          var x3 := x2[1..];
          assert Canonical(x2)[1..] == Canonical(x3);
          CanonicalHead(x3);
          if x3 != [] && x3[0] == RBrace {
            CanonicalStep(x3);
            assert Canonical(x3)[1..] == Canonical(x3[1..]);
          }
        }
      }
    }
  }

  lemma OpenGroupFollows(ls: seq<Lexeme>)
    requires OpenWithComma(ls)
    ensures Follows(ParseAtom(ls), ParseAtom(Canonical(ls)))
  {
    OpenGroupAsWritten(ls);
    OpenGroupCanonical(ls);
  }

  lemma OpenGroupAsWritten(ls: seq<Lexeme>)
    requires OpenWithComma(ls)
    ensures ParseAtom(ls) == Ok((Repetition(ls[1].value, None), ls[4..]))
  {
    var n := ls[1].value;
    BraceAtom(ls);
    assert ls[1..] == [Integer(n), Comma, RBrace] + ls[4..];
    OptionalCommaParses(n, ls[4..]);
  }

  lemma OpenGroupCanonical(ls: seq<Lexeme>)
    requires OpenWithComma(ls)
    ensures ParseAtom(Canonical(ls)) == Ok((Repetition(ls[1].value, None), Canonical(ls[4..])))
  {
    var n := ls[1].value;
    var tail := Canonical(ls[4..]);
    var c := Canonical(ls);
    assert c == [LBrace, Integer(n), RBrace] + tail;
    BraceAtom(c);
    ClosedGroupTail(n, tail);
    RepetitionParses(n, None, tail);
  }

  lemma ClosedGroupTail(n: nat, tail: seq<Lexeme>)
    ensures ([LBrace, Integer(n), RBrace] + tail)[1..] == [Integer(n), RBrace] + tail
  {
  }

  lemma BraceAtom(ls: seq<Lexeme>)
    requires ls != [] && ls[0] == LBrace
    ensures ParseAtom(ls) == ParseRepetition(ls[1..])
  {
  }

  lemma BraceFollows(ls: seq<Lexeme>)
    requires ls != [] && ls[0] == LBrace && !OpenWithComma(ls)
    ensures Follows(ParseAtom(ls), ParseAtom(Canonical(ls)))
  {
    CanonicalStep(ls);
    BraceAtom(ls);
    BraceAtom(Canonical(ls));
    RepetitionFollows(ls);
  }

  lemma AtomFollows(ls: seq<Lexeme>)
    ensures Follows(ParseAtom(ls), ParseAtom(Canonical(ls)))
  {
    CanonicalHead(ls);
    if ls != [] {
      if OpenWithComma(ls) {
        OpenGroupFollows(ls);
      } else if ls[0] == LBrace {
        BraceFollows(ls);
      } else {
        UnbracedAtomFollows(ls);
      }
    }
  }

  lemma UnbracedAtomFollows(ls: seq<Lexeme>)
    requires ls != [] && ls[0] != LBrace
    ensures Follows(ParseAtom(ls), ParseAtom(Canonical(ls)))
  {
    CanonicalStep(ls);
    var c := Canonical(ls);
    assert c != [] && c[0] == ls[0] && c[1..] == Canonical(ls[1..]);
    if ls[0] == LBracket {
      BracketAtom(ls);
      BracketAtom(c);
      PropertySetFollows(ls[1..]);
    }
  }

  lemma FactorFollows(ls: seq<Lexeme>)
    ensures Follows(ParseFactor(ls), ParseFactor(Canonical(ls)))
  {
    AtomFollows(ls);
    if ParseAtom(Canonical(ls)).Ok? {
      var r := ParseAtom(ls).value.1;
      CanonicalHead(r);
      if LeadsWithMetacharacter(r) {
        CanonicalStep(r);
        assert Canonical(r)[1..] == Canonical(r[1..]);
      }
    }
  }

  lemma {:induction false} FactorsFollow(ls: seq<Lexeme>)
    ensures Follows(ParseFactors(ls), ParseFactors(Canonical(ls)))
    decreases |ls|
  {
    CanonicalHead(ls);
    if ls != [] && StartsAtom(ls[0]) {
      FactorFollows(ls);
      if ParseFactor(Canonical(ls)).Ok? {
        FactorsFollow(ParseFactor(ls).value.1);
      }
    }
  }

  lemma TermFollows(ls: seq<Lexeme>)
    ensures Follows(ParseTerm(ls), ParseTerm(Canonical(ls)))
  {
    FactorFollows(ls);
    if ParseFactor(Canonical(ls)).Ok? {
      FactorsFollow(ParseFactor(ls).value.1);
    }
  }

  lemma {:induction false} AlternativesFollow(ls: seq<Lexeme>)
    ensures Follows(ParseAlternatives(ls), ParseAlternatives(Canonical(ls)))
    decreases |ls|
  {
    CanonicalHead(ls);
    if ls != [] && ls[0] == Pipe {
      CanonicalStep(ls);
      assert Canonical(ls)[1..] == Canonical(ls[1..]);
      TermFollows(ls[1..]);
      if ParseTerm(Canonical(ls[1..])).Ok? {
        AlternativesFollow(ParseTerm(ls[1..]).value.1);
      }
    }
  }

  lemma ExpressionFollows(ls: seq<Lexeme>)
    ensures Follows(ParseExpression(ls), ParseExpression(Canonical(ls)))
  {
    TermFollows(ls);
    if ParseTerm(Canonical(ls)).Ok? {
      AlternativesFollow(ParseTerm(ls).value.1);
    }
  }

  /** Every spelling of a well-formed tree, with or without the optional
      comma of each open repetition, is parsed to that tree. */
  lemma ParseSpelling(ls: seq<Lexeme>, e: Expression)
    requires WellFormed(e) && Canonical(ls) == Render(e)
    ensures ParseExpression(ls) == Ok((e, []))
  {
    ParseRender(e);
    ExpressionFollows(ls);
    CanonicalHead(ParseExpression(ls).value.1);
  }
}
