/**
 Which texts are accepted as a gated selection (packages/cli/src/fleet-routing.ts, parseGatedRunsOn): exactly the
 rendered text with any guard in the place of the rendered one that names both required clauses, holds no delimiter of
 expressions and no second tail. So every stricter guard a maintainer writes is accepted.
 */
module GuardAcceptance {
  import opened Contracts
  import opened Text
  import opened Guards
  import opened Labels
  import opened GatedRunsOn

  // The rendered text with another guard.
  function Gated(c: Clauses, guard: string): string {
    Prefix(c) + (guard + (TAIL_HEAD + (c.labels + (TAIL_MIDDLE + c.fallback))))
  }

  predicate NamesBoth(guard: string, c: Clauses) {
    var conjuncts := TopLevelConjuncts(guard);
    conjuncts.Some? && c.owner in conjuncts.value && c.workflow in conjuncts.value
  }

  predicate Undelimited(s: string) { !Contains(s, "${{") && !Contains(s, "}}") }

  // A tail matches before the end of the guard.
  ghost predicate TailInside(c: Clauses, guard: string) {
    exists i: nat :: i < |Prefix(c)| + |guard| && TailAt(Gated(c, guard), i).Some?
  }

  ghost predicate Fitting(guard: string, c: Clauses) {
    NamesBoth(guard, c) && Undelimited(Gated(c, guard)) && !TailInside(c, guard)
  }

  predicate OneLineFallback(c: Clauses) { c.fallback != "" && forall k :: 0 <= k < |c.fallback| ==> !IsLineEnd(c.fallback[k]) }

  // ---- exactly these texts ----

  lemma {:induction false} FindsFirst(s: string, from: nat, i: nat)
    requires from <= i < |s| && FindTail(s, from).Some? && i < FindTail(s, from).value.index
    ensures TailAt(s, i).None?
    decreases |s| - from
  {
    if from < i {
      FindsFirst(s, from + 1, i);
    }
  }

  lemma GatedParts(c: Clauses, guard: string)
    ensures var head := Prefix(c) + guard;
            && Gated(c, guard) == head + (TAIL_HEAD + (c.labels + (TAIL_MIDDLE + c.fallback)))
            && Prefix(c) <= Gated(c, guard) && GuardOf(Gated(c, guard), Prefix(c), |head|) == guard
  {
    var rest := TAIL_HEAD + (c.labels + (TAIL_MIDDLE + c.fallback));
    assert Prefix(c) + (guard + rest) == (Prefix(c) + guard) + rest;
    assert Gated(c, guard)[|Prefix(c)|..] == guard + rest;
    assert (guard + rest)[..|guard|] == guard;
  }

  lemma DelimitedExactly(expression: string, inner: string)
    requires "${{ " <= expression && EndsWith(expression, " }}") && InnerOf(expression) == inner && inner != ""
    ensures expression == Delimited(inner)
  {
    assert expression == expression[..4] + expression[4..|expression| - 3] + expression[|expression| - 3..];
  }

  predicate InnerAccepted(inner: string, c: Clauses) {
    && Undelimited(inner) && Prefix(c) <= inner
    && var tail := FindTail(inner, 0);
       && tail.Some? && tail.value.rest == c.fallback && tail.value.labels == c.labels
       && NamesBoth(GuardOf(inner, Prefix(c), tail.value.index), c)
  }

  lemma AcceptsInner(expression: string, c: Clauses)
    ensures Accepts(expression, c)
            <==> "${{ " <= expression && EndsWith(expression, " }}") && InnerAccepted(InnerOf(expression), c)
  {
  }

  lemma InnerGated(inner: string, c: Clauses) returns (guard: string)
    requires InnerAccepted(inner, c) && c.owner != ""
    ensures inner == Gated(c, guard) && NamesBoth(guard, c) && '\'' !in c.labels
    ensures FindTail(inner, 0).Some? && |Prefix(c)| + |guard| == FindTail(inner, 0).value.index
  {
    var prefix, index := Prefix(c), FindTail(inner, 0).value.index;
    guard := GuardOf(inner, prefix, index);
    EmptyGuard();
    TailParts(inner, index);
    CutAt(inner, prefix, index);
  }

  // An accepted text is the rendered one around a fitting guard.
  lemma AcceptedFits(expression: string, c: Clauses) returns (guard: string)
    requires Accepts(expression, c) && c.owner != ""
    ensures expression == Delimited(Gated(c, guard)) && Fitting(guard, c) && '\'' !in c.labels
  {
    AcceptsInner(expression, c);
    var inner := InnerOf(expression);
    guard := InnerGated(inner, c);
    DelimitedExactly(expression, inner);
    forall i: nat | i < |Prefix(c)| + |guard| ensures TailAt(inner, i).None? {
      FindsFirst(inner, 0, i);
    }
  }

  lemma FittingAccepted(guard: string, c: Clauses)
    requires Fitting(guard, c) && '\'' !in c.labels && OneLineFallback(c)
    ensures Accepts(Delimited(Gated(c, guard)), c)
  {
    var inner, head := Gated(c, guard), Prefix(c) + guard;
    DelimitedInner(inner);
    AcceptsInner(Delimited(inner), c);
    GatedParts(c, guard);
    TailHere(inner, head, c.labels, c.fallback);
    FindTailAt(inner, 0, |head|);
  }

  lemma FittingLabels(guard: string, c: Clauses)
    requires Undelimited(Gated(c, guard))
    ensures Undelimited(c.labels)
  {
    var before, after := Prefix(c) + guard + TAIL_HEAD, TAIL_MIDDLE + c.fallback;
    assert Gated(c, guard) == before + (c.labels + after) by {
      GatedParts(c, guard);
      assert Prefix(c) + guard + (TAIL_HEAD + (c.labels + after)) == before + (c.labels + after);
    }
    if Contains(c.labels, "}}") {
      ContainsAround(before, c.labels, after, "}}");
    }
    if Contains(c.labels, "${{") {
      ContainsAround(before, c.labels, after, "${{");
    }
  }

  lemma ClausesFit(g: Gate)
    requires ValidGate(g)
    ensures OneLineFallback(ClausesOf(g)) && ClausesOf(g).owner != ""
  {
    ClausesTidy(g);
  }

  ghost predicate AcceptableText(expression: string, g: Gate)
    requires ValidGate(g)
  {
    Embeddable(g.runnerLabel) && exists guard :: Fitting(guard, ClausesOf(g)) && expression == Delimited(Gated(ClausesOf(g), guard))
  }

  // Read are exactly the rendered text with a fitting guard, and always as the same selection.
  lemma AcceptedExactly(expression: string, g: Gate)
    requires ValidGate(g)
    ensures Parse(expression, g) == if AcceptableText(expression, g) then Some(SelectionOf(g)) else None
  {
    var c := ClausesOf(g);
    ClausesFit(g);
    EmbeddableLabels(g.runnerLabel);
    if Accepts(expression, c) {
      var guard := AcceptedFits(expression, c);
      FittingLabels(guard, c);
      assert AcceptableText(expression, g);
    }
    if AcceptableText(expression, g) {
      var guard :| Fitting(guard, c) && expression == Delimited(Gated(c, guard));
      FittingAccepted(guard, c);
    }
  }

  // ---- stricter guards ----

  lemma ContainsAt(s: string, part: string, i: nat)
    requires i + |part| <= |s| && s[i..i + |part|] == part
    ensures Contains(s, part)
  {
    assert s[i..][..|part|] == part;
    assert part <= s[i..];
  }

  // Where one text ends with a character that the part does not hold, or the other begins with one, the part lies on one
  // side of the border.
  lemma AcrossBorder(a: string, b: string, part: string)
    requires a != "" && b != "" && part != "" && (a[|a| - 1] !in part || b[0] !in part)
    requires Contains(a + b, part)
    ensures Contains(a, part) || Contains(b, part)
  {
    var s := a + b;
    var i :| 0 <= i <= |s| && part <= s[i..];
    PrefixAt(part, s, i);
    assert s[i..i + |part|] == part;
    assert forall j :: i <= j < i + |part| ==> s[j] == part[j - i];
    assert s[|a| - 1] == a[|a| - 1] && s[|a|] == b[0];
    if i + |part| <= |a| {
      assert a[i..i + |part|] == part;
      ContainsAt(a, part, i);
    } else if i >= |a| {
      assert b[i - |a|..i - |a| + |part|] == part;
      ContainsAt(b, part, i - |a|);
    }
  }

  lemma WithoutPart(c: Clauses)
    requires Tidy(c)
    ensures Undelimited(Prefix(c)) && Undelimited(TAIL_MIDDLE + c.fallback) && Undelimited(TAIL_HEAD)
  {
    Separators();
    HeadChars();
    BracesJoin(c.switched, " && (");
    BracesJoin(TAIL_MIDDLE, c.fallback);
    ApartUndelimited(Prefix(c));
    ApartUndelimited(TAIL_MIDDLE + c.fallback);
    ApartUndelimited(TAIL_HEAD);
  }

  lemma ApartUndelimited(s: string)
    requires BracesApart(s)
    ensures Undelimited(s)
  {
    forall i | 0 <= i <= |s| ensures !("}}" <= s[i..]) && !("${{" <= s[i..]) {
      DelimiterAt(s, i);
    }
  }

  lemma DelimiterAt(s: string, i: nat)
    requires i <= |s|
    ensures "}}" <= s[i..] ==> i + 1 < |s| && s[i] == '}' && s[i + 1] == '}'
    ensures "${{" <= s[i..] ==> i + 2 < |s| && s[i + 1] == '{' && s[i + 2] == '{'
  {
    assert forall k :: 0 <= k < |s[i..]| ==> s[i..][k] == s[i + k];
  }

  // Delimiters stand in the whole text only if they stand in the guard or in the labels.
  lemma GatedUndelimited(c: Clauses, guard: string, part: string)
    requires Tidy(c) && guard != "" && c.labels != "" && part in {"${{", "}}"}
    requires !Contains(guard, part) && !Contains(c.labels, part)
    ensures !Contains(Gated(c, guard), part)
  {
    WithoutPart(c);
    HeadChars();
    var after := TAIL_MIDDLE + c.fallback;
    if Contains(Gated(c, guard), part) {
      AcrossBorder(Prefix(c), guard + (TAIL_HEAD + (c.labels + after)), part);
      AcrossBorder(guard, TAIL_HEAD + (c.labels + after), part);
      AcrossBorder(TAIL_HEAD, c.labels + after, part);
      AcrossBorder(c.labels, after, part);
    }
  }

  // A tail begins inside only if its opening stands in the guard.
  lemma NoTailInside(c: Clauses, guard: string)
    requires ')' !in c.switched && !Contains(guard, TAIL_HEAD)
    ensures !TailInside(c, guard)
  {
    HeadChars();
    GatedParts(c, guard);
    var s, head, prefix := Gated(c, guard), Prefix(c) + guard, Prefix(c);
    forall i: nat | i < |head| ensures TailAt(s, i).None? {
      if TAIL_HEAD <= s[i..] {
        PrefixAt(TAIL_HEAD, s, i);
        assert s[i + 0] == ')' && s[i + 14] == '\'';
        assert i >= |prefix|;
        if i + 15 <= |head| {
          assert s[i..][..15] == TAIL_HEAD;
          assert guard[i - |prefix|..i - |prefix| + 15] == TAIL_HEAD;
          ContainsAt(guard, TAIL_HEAD, i - |prefix|);
        }
      }
    }
  }

  lemma SwitchOpen(g: Gate)
    requires ValidGate(g)
    ensures ')' !in ClausesOf(g).switched
  {
    SwitchPlain(g);
    OpenCompared("vars." + SwitchFor(g.enrollmentId) + " == ", "on");
  }

  lemma OpenCompared(head: string, word: string)
    requires IsPlain(head) && ')' !in word
    ensures ')' !in head + Quoted(word)
  {
  }

  lemma SomeText(g: Gate, term: Conjunction)
    requires ValidGate(g) && WellFormedTerm(term) && Stricter(term, ClausesOf(g))
    ensures ConjunctionText(term) != "" && ClausesOf(g).labels != "" && NamesBoth(ConjunctionText(term), ClausesOf(g))
  {
    ConjunctsExactly(Last(term));
    EmptyGuard();
    ClausesFit(g);
    LabelsText(g.runnerLabel);
    assert TopLevelConjuncts(ConjunctionText(term)) == Some(TrimmedTexts(term));
  }

  // The operands of a stricter guard: the owner and the workflow clause are among them.
  predicate Stricter(term: Conjunction, c: Clauses) {
    c.owner in TrimmedTexts(term) && c.workflow in TrimmedTexts(term)
  }

  // Every guard that requires the owner and the workflow clause and whatever else, in any order, is accepted, unless it
  // holds a delimiter of expressions or the opening of a tail.
  lemma StricterAccepted(term: Conjunction, g: Gate)
    requires ValidGate(g) && Embeddable(g.runnerLabel) && WellFormedTerm(term) && Stricter(term, ClausesOf(g))
    requires Undelimited(ConjunctionText(term)) && !Contains(ConjunctionText(term), TAIL_HEAD)
    ensures Parse(Delimited(Gated(ClausesOf(g), ConjunctionText(term))), g) == Some(SelectionOf(g))
  {
    var c, guard := ClausesOf(g), ConjunctionText(term);
    SomeText(g, term);
    ClausesTidy(g);
    EmbeddableLabels(g.runnerLabel);
    GatedUndelimited(c, guard, "${{");
    GatedUndelimited(c, guard, "}}");
    SwitchOpen(g);
    NoTailInside(c, guard);
    FittingExpression(c, guard, g);
  }

  lemma FittingExpression(c: Clauses, guard: string, g: Gate)
    requires ValidGate(g) && c == ClausesOf(g) && Embeddable(g.runnerLabel) && Fitting(guard, c)
    ensures Parse(Delimited(Gated(c, guard)), g) == Some(SelectionOf(g))
  {
    assert AcceptableText(Delimited(Gated(c, guard)), g);
    AcceptedExactly(Delimited(Gated(c, guard)), g);
  }
}
