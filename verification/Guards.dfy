/**
 Splitting a workflow guard on its top-level `&&` (packages/cli/src/fleet-routing.ts, topLevelConjuncts) preserves its
 meaning: the pieces are the operands of the guard as GitHub reads it, and a guard with a top-level `||` is refused.
 Expressions are clauses without top-level operators, parentheses, `&&` and `||`; index brackets are not modelled.
 */
module Guards {
  import opened Contracts
  import opened Text

  // ---- literals are masked ----

  predicate InsideAfter(c: char, inside: bool) { if c == '\'' then !inside else inside }

  function Masked(c: char, inside: bool): char { if inside || c == '\'' then '_' else c }

  // Replaces every character of a single-quoted literal, quotes included; `inside` says whether one is open.
  // A doubled quote inside a literal closes and reopens it, which masks the same characters.
  function Mask(s: string, inside: bool): (r: string)
    ensures |r| == |s|
  {
    if s == "" then "" else [Masked(s[0], inside)] + Mask(s[1..], InsideAfter(s[0], inside))
  }

  predicate EndsInside(s: string, inside: bool) {
    if s == "" then inside else EndsInside(s[1..], InsideAfter(s[0], inside))
  }

  predicate Even(s: string) { !EndsInside(s, false) }

  lemma {:induction false} MaskConcat(a: string, b: string, inside: bool)
    ensures Mask(a + b, inside) == Mask(a, inside) + Mask(b, EndsInside(a, inside))
    ensures EndsInside(a + b, inside) == EndsInside(b, EndsInside(a, inside))
  {
    if a == "" {
      assert a + b == b;
    } else {
      assert (a + b)[1..] == a[1..] + b;
      MaskConcat(a[1..], b, InsideAfter(a[0], inside));
    }
  }

  // What the expression /(?:[^']|'')*/ matches in full.
  predicate LiteralBody(b: string) {
    || b == ""
    || (b[0] != '\'' && LiteralBody(b[1..]))
    || (|b| >= 2 && b[0] == '\'' && b[1] == '\'' && LiteralBody(b[2..]))
  }

  function Underscores(n: nat): (r: string)
    ensures |r| == n
  {
    if n == 0 then "" else ['_'] + Underscores(n - 1)
  }

  lemma {:induction false} BodyMasked(b: string)
    requires LiteralBody(b)
    ensures Mask(b, true) == Underscores(|b|) && EndsInside(b, true)
  {
    if b != "" {
      if b[0] != '\'' {
        BodyMasked(b[1..]);
      } else {
        BodyMasked(b[2..]);
        assert b[1..][1..] == b[2..];
      }
    }
  }

  // Masking replaces a whole literal, and leaves text without quotes alone.
  lemma {:induction false} LiteralMasked(b: string)
    requires LiteralBody(b)
    ensures Mask(['\''] + b + ['\''], false) == Underscores(|b| + 2) && Even(['\''] + b + ['\''])
  {
    var closed := b + ['\''];
    assert ['\''] + b + ['\''] == ['\''] + closed;
    assert (['\''] + closed)[1..] == closed;
    BodyMasked(b);
    MaskConcat(b, ['\''], true);
    UnderscoresSnoc(|b|);
  }

  lemma {:induction false} UnderscoresSnoc(n: nat)
    ensures Underscores(n) + "_" == Underscores(n + 1)
  {
    if n > 0 {
      UnderscoresSnoc(n - 1);
      assert Underscores(n) + "_" == ['_'] + (Underscores(n - 1) + "_");
    }
  }

  lemma {:induction false} QuoteFree(s: string)
    requires '\'' !in s
    ensures Mask(s, false) == s && Even(s)
  {
    if s != "" {
      QuoteFree(s[1..]);
    }
  }

  // ---- the split ----

  predicate Pair(s: string, c: char) { |s| >= 2 && s[0] == c && s[1] == c }

  // The conjuncts from here on: `piece` is the conjunct read so far, `masked` the masked form of what is left.
  function ConjunctsFrom(piece: string, raw: string, masked: string, depth: nat): Option<seq<string>>
    requires |raw| == |masked|
    decreases |raw|
  {
    if raw == "" then (if depth == 0 then Some([Trim(piece)]) else None)
    else if masked[0] == '(' then ConjunctsFrom(piece + [raw[0]], raw[1..], masked[1..], depth + 1)
    else if masked[0] == ')' then
      if depth == 0 then None else ConjunctsFrom(piece + [raw[0]], raw[1..], masked[1..], depth - 1)
    else if depth == 0 && Pair(masked, '|') then None
    else if depth == 0 && Pair(masked, '&') then
      var rest := ConjunctsFrom("", raw[2..], masked[2..], 0);
      if rest.None? then None else Some([Trim(piece)] + rest.value)
    else ConjunctsFrom(piece + [raw[0]], raw[1..], masked[1..], depth)
  }

  // None where the guard is refused: unbalanced, or a top-level `||`.
  function TopLevelConjuncts(guard: string): Option<seq<string>> {
    if !Even(guard) then None else ConjunctsFrom("", guard, Mask(guard, false), 0)
  }

  // ---- guards as expressions ----

  datatype Disjunction = Last(term: Conjunction) | OrElse(term: Conjunction, others: Disjunction)
  datatype Conjunction = Only(operand: Primary) | AndThen(operand: Primary, rest: Conjunction)

  // A clause is a literal, comparison or call; a group is a parenthesised expression with whitespace around it.
  datatype Primary = Clause(text: string) | Group(before: string, inner: Disjunction, after: string)

  function DisjunctionText(e: Disjunction): string {
    match e
    case Last(term) => ConjunctionText(term)
    case OrElse(term, others) => ConjunctionText(term) + ("||" + DisjunctionText(others))
  }

  function ConjunctionText(c: Conjunction): string {
    match c
    case Only(p) => PrimaryText(p)
    case AndThen(p, rest) => PrimaryText(p) + ("&&" + ConjunctionText(rest))
  }

  function PrimaryText(p: Primary): string {
    match p
    case Clause(text) => text
    case Group(before, inner, after) => before + ("(" + (DisjunctionText(inner) + (")" + after)))
  }

  // The depth after a masked text that never closes more than was open.
  function Nested(masked: string, depth: nat): Option<nat> {
    if masked == "" then Some(depth)
    else if masked[0] == '(' then Nested(masked[1..], depth + 1)
    else if masked[0] == ')' then (if depth == 0 then None else Nested(masked[1..], depth - 1))
    else Nested(masked[1..], depth)
  }

  // The same for a text without operator characters at depth 0.
  function Walk(masked: string, depth: nat): Option<nat> {
    if masked == "" then Some(depth)
    else if masked[0] == '(' then Walk(masked[1..], depth + 1)
    else if masked[0] == ')' then (if depth == 0 then None else Walk(masked[1..], depth - 1))
    else if depth == 0 && masked[0] in {'&', '|'} then None
    else Walk(masked[1..], depth)
  }

  predicate Balanced(s: string) { Even(s) && Nested(Mask(s, false), 0) == Some(0) }

  predicate OperatorFree(s: string) { Even(s) && Walk(Mask(s, false), 0) == Some(0) }

  ghost predicate IsGroupText(s: string) {
    exists before, inner, after ::
      AllSpace(before) && AllSpace(after) && Balanced(inner) && s == before + ("(" + (inner + (")" + after)))
  }

  ghost predicate WellFormed(e: Disjunction) {
    WellFormedTerm(e.term) && (e.OrElse? ==> WellFormed(e.others))
  }

  ghost predicate WellFormedTerm(c: Conjunction) {
    WellFormedOperand(c.operand) && (c.AndThen? ==> WellFormedTerm(c.rest))
  }

  ghost predicate WellFormedOperand(p: Primary) {
    match p
    case Clause(text) => OperatorFree(text) && !IsGroupText(text)
    case Group(before, inner, after) => AllSpace(before) && AllSpace(after) && WellFormed(inner)
  }

  // ---- walking over texts ----

  lemma {:induction false} WalkNested(m: string, depth: nat)
    ensures Walk(m, depth).Some? ==> Nested(m, depth) == Walk(m, depth)
    ensures Nested(m, depth).Some? ==> Walk(m, depth + 1) == Some(Nested(m, depth).value + 1)
    ensures Nested(m, depth).Some? ==> Nested(m, depth + 1) == Some(Nested(m, depth).value + 1)
    decreases |m|
  {
    if m != "" {
      if m[0] == '(' {
        WalkNested(m[1..], depth + 1);
      } else if m[0] == ')' {
        if depth > 0 {
          WalkNested(m[1..], depth - 1);
        }
      } else {
        WalkNested(m[1..], depth);
      }
    }
  }

  lemma {:induction false} NestedConcat(a: string, b: string, depth: nat)
    requires Nested(a, depth).Some?
    ensures Nested(a + b, depth) == Nested(b, Nested(a, depth).value)
    decreases |a|
  {
    if a == "" {
      assert a + b == b;
    } else {
      assert (a + b)[1..] == a[1..] + b;
      NestedConcat(a[1..], b, if a[0] == '(' then depth + 1 else if a[0] == ')' then depth - 1 else depth);
    }
  }

  lemma {:induction false} WalkConcat(a: string, b: string, depth: nat)
    requires Walk(a, depth).Some?
    ensures Walk(a + b, depth) == Walk(b, Walk(a, depth).value)
    decreases |a|
  {
    if a == "" {
      assert a + b == b;
    } else {
      assert (a + b)[1..] == a[1..] + b;
      WalkConcat(a[1..], b, if a[0] == '(' then depth + 1 else if a[0] == ')' then depth - 1 else depth);
    }
  }

  lemma {:induction false} SpaceWalks(s: string, depth: nat)
    requires AllSpace(s)
    ensures '\'' !in s && Walk(s, depth) == Some(depth)
  {
    if s != "" {
      SpaceWalks(s[1..], depth);
      assert s == [s[0]] + s[1..];
    }
  }

  // Texts that stand side by side: each even, so masked on its own.
  lemma JoinBalanced(a: string, b: string)
    requires Balanced(a) && Balanced(b)
    ensures Balanced(a + b) && Mask(a + b, false) == Mask(a, false) + Mask(b, false)
  {
    MaskConcat(a, b, false);
    NestedConcat(Mask(a, false), Mask(b, false), 0);
  }

  lemma JoinFree(a: string, b: string)
    requires OperatorFree(a) && OperatorFree(b)
    ensures OperatorFree(a + b) && Mask(a + b, false) == Mask(a, false) + Mask(b, false)
  {
    MaskConcat(a, b, false);
    WalkConcat(Mask(a, false), Mask(b, false), 0);
  }

  lemma FreeIsBalanced(s: string)
    requires OperatorFree(s)
    ensures Balanced(s)
  {
    WalkNested(Mask(s, false), 0);
  }

  lemma SpaceFree(s: string)
    requires AllSpace(s)
    ensures OperatorFree(s)
  {
    SpaceWalks(s, 0);
    QuoteFree(s);
  }

  // A balanced text in parentheses has no operator at its top level.
  lemma GroupFree(inner: string)
    requires Balanced(inner)
    ensures OperatorFree("(" + (inner + ")"))
  {
    var m := Mask(inner, false);
    var closed := inner + ")";
    MaskConcat(inner, ")", false);
    assert Mask(")", false) == ")";
    assert ("(" + closed)[1..] == closed;
    WalkNested(m, 0);
    WalkConcat(m, ")", 1);
    assert ("(" + (m + ")"))[1..] == m + ")";
    assert Mask("(" + closed, false) == "(" + (m + ")");
  }

  lemma GroupTextFree(before: string, inner: string, after: string)
    requires AllSpace(before) && AllSpace(after) && Balanced(inner)
    ensures OperatorFree(before + ("(" + (inner + (")" + after))))
  {
    SpaceFree(before);
    SpaceFree(after);
    GroupFree(inner);
    var group := "(" + (inner + ")");
    JoinFree(group, after);
    JoinFree(before, group + after);
    assert group + after == "(" + (inner + (")" + after));
  }

  lemma OperatorBalanced(op: string)
    requires op == "&&" || op == "||"
    ensures Balanced(op) && Mask(op, false) == op
  {
    QuoteFree(op);
    var tail := op[1..];
    assert tail[0] == op[1] && tail[1..] == "";
    assert Nested(tail, 0) == Nested("", 0);
  }

  lemma {:induction false} DisjunctionBalanced(e: Disjunction)
    requires WellFormed(e)
    ensures Balanced(DisjunctionText(e))
  {
    ConjunctionBalanced(e.term);
    if e.OrElse? {
      DisjunctionBalanced(e.others);
      OperatorBalanced("||");
      JoinBalanced("||", DisjunctionText(e.others));
      JoinBalanced(ConjunctionText(e.term), "||" + DisjunctionText(e.others));
    }
  }

  lemma {:induction false} ConjunctionBalanced(c: Conjunction)
    requires WellFormedTerm(c)
    ensures Balanced(ConjunctionText(c))
  {
    PrimaryFree(c.operand);
    FreeIsBalanced(PrimaryText(c.operand));
    if c.AndThen? {
      ConjunctionBalanced(c.rest);
      OperatorBalanced("&&");
      JoinBalanced("&&", ConjunctionText(c.rest));
      JoinBalanced(PrimaryText(c.operand), "&&" + ConjunctionText(c.rest));
    }
  }

  lemma {:induction false} PrimaryFree(p: Primary)
    requires WellFormedOperand(p)
    ensures OperatorFree(PrimaryText(p))
  {
    if p.Group? {
      DisjunctionBalanced(p.inner);
      GroupTextFree(p.before, DisjunctionText(p.inner), p.after);
    }
  }

  // ---- the split finds the operands ----

  // Text without a top-level operator joins the current piece.
  lemma {:induction false} PassOver(piece: string, a: string, ma: string, b: string, mb: string, depth: nat)
    requires |a| == |ma| && |b| == |mb| && Walk(ma, depth).Some?
    ensures ConjunctsFrom(piece, a + b, ma + mb, depth) == ConjunctsFrom(piece + a, b, mb, Walk(ma, depth).value)
    decreases |a|
  {
    if a == "" {
      assert a + b == b && ma + mb == mb && piece + a == piece;
    } else {
      var next := if ma[0] == '(' then depth + 1 else if ma[0] == ')' then depth - 1 else depth;
      assert (a + b)[1..] == a[1..] + b && (ma + mb)[1..] == ma[1..] + mb && (ma + mb)[0] == ma[0];
      PassOver(piece + [a[0]], a[1..], ma[1..], b, mb, next);
      assert piece + [a[0]] + a[1..] == piece + a;
    }
  }

  function Operands(c: Conjunction): seq<Primary> {
    if c.Only? then [c.operand] else [c.operand] + Operands(c.rest)
  }

  function TrimmedTexts(c: Conjunction): seq<string> {
    if c.Only? then [Trim(PrimaryText(c.operand))] else [Trim(PrimaryText(c.operand))] + TrimmedTexts(c.rest)
  }

  lemma OperandRead(p: Primary, b: string, mb: string)
    requires WellFormedOperand(p) && |b| == |mb|
    ensures var t := PrimaryText(p); ConjunctsFrom("", t + b, Mask(t, false) + mb, 0) == ConjunctsFrom(t, b, mb, 0)
  {
    var t := PrimaryText(p);
    PrimaryFree(p);
    PassOver("", t, Mask(t, false), b, mb, 0);
    assert "" + t == t;
  }

  lemma AndThenText(first: string, others: string, b: string, mb: string)
    requires OperatorFree(first) && |b| == |mb|
    ensures var t := first + ("&&" + others);
            && t + b == first + ("&&" + (others + b))
            && Mask(t, false) + mb == Mask(first, false) + ("&&" + (Mask(others, false) + mb))
  {
    var tail := "&&" + others;
    MaskConcat(first, tail, false);
    MaskConcat("&&", others, false);
    OperatorBalanced("&&");
    assert Mask(first, false) + Mask(tail, false) + mb == Mask(first, false) + (Mask(tail, false) + mb);
  }

  lemma OperatorRead(piece: string, b: string, mb: string)
    requires |b| == |mb|
    ensures ConjunctsFrom(piece, "&&" + b, "&&" + mb, 0) == Prepend([Trim(piece)], ConjunctsFrom("", b, mb, 0))
  {
    SplitHere(piece, "&&" + b, "&&" + mb);
    assert ("&&" + b)[2..] == b && ("&&" + mb)[2..] == mb;
  }

  // The split of a term: its operands when it ends the text, refused when `||` follows.
  lemma {:induction false} TermSplit(c: Conjunction, b: string, mb: string)
    requires WellFormedTerm(c) && |b| == |mb| && (b == "" || Pair(mb, '|'))
    ensures var t := ConjunctionText(c);
            ConjunctsFrom("", t + b, Mask(t, false) + mb, 0) == if b == "" then Some(TrimmedTexts(c)) else None
  {
    var first, t := PrimaryText(c.operand), ConjunctionText(c);
    if c.Only? {
      OperandRead(c.operand, b, mb);
    } else {
      var others := ConjunctionText(c.rest);
      PrimaryFree(c.operand);
      AndThenText(first, others, b, mb);
      var tail, mtail := others + b, Mask(others, false) + mb;
      OperandRead(c.operand, "&&" + tail, "&&" + mtail);
      OperatorRead(first, tail, mtail);
      TermSplit(c.rest, b, mb);
    }
  }

  // For every well-formed guard, the split is exactly the list of its operands, and a top-level `||` is refused.
  lemma ConjunctsExactly(e: Disjunction)
    requires WellFormed(e)
    ensures TopLevelConjuncts(DisjunctionText(e)) == if e.Last? then Some(TrimmedTexts(e.term)) else None
  {
    DisjunctionBalanced(e);
    ConjunctionBalanced(e.term);
    var t := ConjunctionText(e.term);
    if e.Last? {
      TermSplit(e.term, "", "");
      assert t + "" == t && Mask(t, false) + "" == Mask(t, false);
    } else {
      var tail := "||" + DisjunctionText(e.others);
      MaskConcat(t, tail, false);
      MaskConcat("||", DisjunctionText(e.others), false);
      OperatorBalanced("||");
      TermSplit(e.term, tail, Mask(tail, false));
    }
  }

  // ---- meaning ----

  // A value of the expression language, of which only its truth matters to `&&` and `||`.
  datatype Value = Value(truthy: bool, content: string)

  function DisjunctionValue(e: Disjunction, env: string -> Value): Value {
    var first := ConjunctionValue(e.term, env);
    if e.Last? || first.truthy then first else DisjunctionValue(e.others, env)
  }

  function ConjunctionValue(c: Conjunction, env: string -> Value): Value {
    var first := PrimaryValue(c.operand, env);
    if c.Only? || !first.truthy then first else ConjunctionValue(c.rest, env)
  }

  function PrimaryValue(p: Primary, env: string -> Value): Value {
    match p
    case Clause(text) => env(Trim(text))
    case Group(_, inner, _) => DisjunctionValue(inner, env)
  }

  ghost predicate AllTrue(operands: seq<Primary>, env: string -> Value) {
    forall p :: p in operands ==> PrimaryValue(p, env).truthy
  }

  lemma {:induction false} TermTruth(c: Conjunction, env: string -> Value)
    ensures ConjunctionValue(c, env).truthy <==> AllTrue(Operands(c), env)
  {
    assert c.operand in Operands(c);
    if c.AndThen? {
      TermTruth(c.rest, env);
      assert forall p :: p in Operands(c) <==> p == c.operand || p in Operands(c.rest);
    }
  }

  lemma {:induction false} TextOfOperand(c: Conjunction, k: nat)
    ensures |Operands(c)| == |TrimmedTexts(c)|
    ensures k < |Operands(c)| ==> TrimmedTexts(c)[k] == Trim(PrimaryText(Operands(c)[k]))
  {
    if c.AndThen? && k > 0 {
      TextOfOperand(c.rest, k - 1);
    } else if c.AndThen? {
      TextOfOperand(c.rest, 0);
    }
  }

  // The pieces of an accepted guard are its operands, and the guard is true exactly when every operand is.
  lemma SplitPreservesMeaning(e: Disjunction, env: string -> Value)
    requires WellFormed(e) && TopLevelConjuncts(DisjunctionText(e)).Some?
    ensures var conjuncts := TopLevelConjuncts(DisjunctionText(e)).value;
            && |conjuncts| == |Operands(e.term)|
            && (forall k :: 0 <= k < |conjuncts| ==> conjuncts[k] == Trim(PrimaryText(Operands(e.term)[k])))
    ensures DisjunctionValue(e, env).truthy <==> AllTrue(Operands(e.term), env)
  {
    ConjunctsExactly(e);
    TermTruth(e.term, env);
    forall k: nat | k < |Operands(e.term)| ensures |Operands(e.term)| == |TrimmedTexts(e.term)| && TrimmedTexts(e.term)[k] == Trim(PrimaryText(Operands(e.term)[k])) {
      TextOfOperand(e.term, k);
    }
    TextOfOperand(e.term, 0);
  }

  lemma {:induction false} OperandsWellFormed(c: Conjunction, k: nat)
    requires WellFormedTerm(c) && k < |Operands(c)|
    ensures WellFormedOperand(Operands(c)[k])
  {
    if k > 0 {
      OperandsWellFormed(c.rest, k - 1);
    }
  }

  // A piece that does not open with a parenthesis is a clause, and is evaluated as it stands.
  lemma PlainOperand(p: Primary, env: string -> Value)
    requires WellFormedOperand(p) && !("(" <= Trim(PrimaryText(p)))
    ensures PrimaryValue(p, env) == env(Trim(PrimaryText(p)))
  {
    if p.Group? {
      GroupOpens(p);
    }
  }

  lemma {:induction false} GroupOpens(p: Primary)
    requires p.Group? && AllSpace(p.before)
    ensures "(" <= Trim(PrimaryText(p))
  {
    var rest := "(" + (DisjunctionText(p.inner) + (")" + p.after));
    TrimStartPadded(p.before, rest);
    TrimEndKeepsHead(rest);
  }

  // A named clause among the conjuncts of an accepted guard is true whenever the guard is.
  lemma ConjunctHolds(e: Disjunction, clause: string, env: string -> Value)
    requires WellFormed(e) && TopLevelConjuncts(DisjunctionText(e)).Some?
    requires clause in TopLevelConjuncts(DisjunctionText(e)).value && !("(" <= clause)
    requires DisjunctionValue(e, env).truthy
    ensures env(clause).truthy
  {
    SplitPreservesMeaning(e, env);
    var conjuncts := TopLevelConjuncts(DisjunctionText(e)).value;
    var k :| 0 <= k < |conjuncts| && conjuncts[k] == clause;
    OperandsWellFormed(e.term, k);
    PlainOperand(Operands(e.term)[k], env);
  }

  // ---- one text has one reading ----

  predicate StartsOperator(s: string) { s == "" || s[0] == '&' || s[0] == '|' }

  // Of two operator-free beginnings of one text, each followed by an operator or the end, neither is longer.
  lemma NotLonger(a: string, x: string, b: string)
    requires OperatorFree(a) && OperatorFree(b) && b == a + x && StartsOperator(x)
    ensures x == ""
  {
    MaskConcat(a, x, false);
    WalkConcat(Mask(a, false), Mask(x, false), 0);
  }

  lemma SameOperand(a: string, x: string, b: string, y: string)
    requires OperatorFree(a) && OperatorFree(b) && a + x == b + y && StartsOperator(x) && StartsOperator(y)
    ensures a == b && x == y
  {
    if |a| <= |b| {
      var more := b[|a|..];
      assert a == (a + x)[..|a|] == (b + y)[..|a|] == b[..|a|];
      assert b == a + more;
      assert x == (a + x)[|a|..] == (b + y)[|a|..] == more + y;
      NotLonger(a, more, b);
    } else {
      var more := a[|b|..];
      assert b == (b + y)[..|b|] == (a + x)[..|b|] == a[..|b|];
      assert a == b + more;
      assert y == (b + y)[|b|..] == (a + x)[|b|..] == more + x;
      NotLonger(b, more, a);
    }
  }

  // What follows the first operand.
  function AfterFirst(e: Disjunction): string {
    match e.term
    case AndThen(_, rest) => "&&" + DisjunctionText(e.(term := rest))
    case Only(_) => if e.Last? then "" else "||" + DisjunctionText(e.others)
  }

  lemma AndRegrouped(first: string, rest: string, others: string)
    ensures first + ("&&" + rest) + others == first + ("&&" + (rest + others))
  {
    assert ("&&" + rest) + others == "&&" + (rest + others);
  }

  lemma FirstOperand(e: Disjunction)
    ensures DisjunctionText(e) == PrimaryText(e.term.operand) + AfterFirst(e)
  {
    var first := PrimaryText(e.term.operand);
    match e
    case Last(Only(_)) => assert first + "" == first;
    case Last(AndThen(_, _)) =>
    case OrElse(Only(_), _) =>
    case OrElse(AndThen(_, rest), others) =>
      assert AfterFirst(e) == "&&" + (ConjunctionText(rest) + ("||" + DisjunctionText(others)));
      AndRegrouped(first, ConjunctionText(rest), "||" + DisjunctionText(others));
  }

  // Every reading of a text that begins with an operand and an operator begins with them.
  lemma ReadAnd(e: Disjunction, operand: string, rest: string)
    requires WellFormed(e) && OperatorFree(operand) && DisjunctionText(e) == operand + ("&&" + rest)
    ensures e.term.AndThen? && PrimaryText(e.term.operand) == operand && WellFormedOperand(e.term.operand)
    ensures WellFormed(e.(term := e.term.rest)) && DisjunctionText(e.(term := e.term.rest)) == rest
  {
    FirstOperand(e);
    PrimaryFree(e.term.operand);
    SameOperand(PrimaryText(e.term.operand), AfterFirst(e), operand, "&&" + rest);
    assert AfterFirst(e)[0] == '&' && AfterFirst(e)[2..] == rest;
  }

  lemma ReadOr(e: Disjunction, operand: string, rest: string)
    requires WellFormed(e) && OperatorFree(operand) && DisjunctionText(e) == operand + ("||" + rest)
    ensures e.term.Only? && PrimaryText(e.term.operand) == operand && WellFormedOperand(e.term.operand)
    ensures e.OrElse? && WellFormed(e.others) && DisjunctionText(e.others) == rest
  {
    FirstOperand(e);
    PrimaryFree(e.term.operand);
    SameOperand(PrimaryText(e.term.operand), AfterFirst(e), operand, "||" + rest);
    assert AfterFirst(e)[0] == '|' && AfterFirst(e)[2..] == rest;
  }

  lemma ReadEnd(e: Disjunction, operand: string)
    requires WellFormed(e) && OperatorFree(operand) && DisjunctionText(e) == operand
    ensures e.Last? && e.term.Only? && PrimaryText(e.term.operand) == operand && WellFormedOperand(e.term.operand)
  {
    FirstOperand(e);
    PrimaryFree(e.term.operand);
    assert operand == operand + "";
    SameOperand(PrimaryText(e.term.operand), AfterFirst(e), operand, "");
  }

  // A parenthesised balanced text is read as a group of exactly that text.
  lemma ReadGroup(p: Primary, before: string, inner: string, after: string)
    requires WellFormedOperand(p) && AllSpace(before) && AllSpace(after) && Balanced(inner)
    requires PrimaryText(p) == before + ("(" + (inner + (")" + after)))
    ensures p.Group? && DisjunctionText(p.inner) == inner
  {
    var text := PrimaryText(p);
    assert IsGroupText(text);
    if p.Group? {
      var body := DisjunctionText(p.inner);
      SameBefore(p.before, body + (")" + p.after), before, inner + (")" + after));
      SameAfter(body, p.after, inner, after);
    }
  }

  lemma SameBefore(a: string, x: string, b: string, y: string)
    requires AllSpace(a) && AllSpace(b) && a + ("(" + x) == b + ("(" + y)
    ensures a == b && x == y
  {
    var s := a + ("(" + x);
    assert s[|a|] == '(' && s[|b|] == '(';
    assert forall k :: 0 <= k < |a| ==> IsSpace(s[k]);
    assert forall k :: 0 <= k < |b| ==> IsSpace(s[k]);
    assert a == s[..|a|] && b == s[..|b|];
    assert x == s[|a| + 1..] && y == s[|b| + 1..];
  }

  lemma SameAfter(x: string, a: string, y: string, b: string)
    requires AllSpace(a) && AllSpace(b) && x + (")" + a) == y + (")" + b)
    ensures x == y && a == b
  {
    var s := x + (")" + a);
    assert s[|x|] == ')' && s[|y|] == ')';
    assert forall k :: |x| < k < |s| ==> s[k] == a[k - |x| - 1];
    assert forall k :: |y| < k < |s| ==> s[k] == b[k - |y| - 1];
    assert x == s[..|x|] && y == s[..|y|];
    assert a == s[|x| + 1..] && b == s[|y| + 1..];
  }

  // ---- every text of the grammar has a reading ----

  predicate IsOperator(c: char) { c == '&' || c == '|' }

  // Outside literals, operator characters stand in pairs.
  predicate OperatorsPaired(masked: string) {
    || masked == ""
    || (if IsOperator(masked[0]) then Pair(masked, masked[0]) && OperatorsPaired(masked[2..]) else OperatorsPaired(masked[1..]))
  }

  predicate Spelled(s: string) { Even(s) && OperatorsPaired(Mask(s, false)) }

  lemma {:induction false} PairedJoin(a: string, b: string)
    requires OperatorsPaired(a) && OperatorsPaired(b)
    ensures OperatorsPaired(a + b)
    decreases |a|
  {
    if a == "" {
      assert a + b == b;
    } else if IsOperator(a[0]) {
      assert (a + b)[2..] == a[2..] + b;
      PairedJoin(a[2..], b);
    } else {
      assert (a + b)[1..] == a[1..] + b;
      PairedJoin(a[1..], b);
    }
  }

  lemma {:induction false} PairedSplit(a: string, b: string)
    requires OperatorsPaired(a + b) && (a == "" || !IsOperator(a[|a| - 1]))
    ensures OperatorsPaired(a) && OperatorsPaired(b)
    decreases |a|
  {
    if a == "" {
      assert a + b == b;
    } else if IsOperator(a[0]) {
      assert (a + b)[1] == a[1];
      assert (a + b)[2..] == a[2..] + b;
      PairedSplit(a[2..], b);
    } else {
      assert (a + b)[1..] == a[1..] + b;
      PairedSplit(a[1..], b);
    }
  }

  lemma SpelledJoin(a: string, b: string)
    requires Spelled(a) && Spelled(b)
    ensures Spelled(a + b)
  {
    MaskConcat(a, b, false);
    PairedJoin(Mask(a, false), Mask(b, false));
  }

  lemma {:induction false} NoOperatorsPaired(m: string)
    requires forall k :: 0 <= k < |m| ==> !IsOperator(m[k])
    ensures OperatorsPaired(m)
  {
    if m != "" {
      NoOperatorsPaired(m[1..]);
    }
  }

  // Where the first operand of a balanced text ends: before an operator at depth 0, or at the end.
  lemma {:induction false} FirstCut(m: string, depth: nat) returns (k: nat)
    requires Nested(m, depth) == Some(0) && OperatorsPaired(m)
    ensures k <= |m| && Walk(m[..k], depth) == Some(0) && OperatorsPaired(m[..k])
    ensures OperatorsPaired(m[k..]) && Nested(m[k..], 0) == Some(0) && (k < |m| ==> IsOperator(m[k]))
    decreases |m|
  {
    if m == "" || (depth == 0 && IsOperator(m[0])) {
      k := 0;
      assert m[..0] == "" && m[0..] == m;
    } else if IsOperator(m[0]) {
      assert Nested(m[1..], depth) == Nested(m[2..], depth) by { assert m[1..][0] == m[1] && m[1..][1..] == m[2..]; }
      var rest := FirstCut(m[2..], depth);
      k := rest + 2;
      assert m[..k][1..][0] == m[1] && m[..k][1..][1..] == m[2..][..rest] && m[..k][2..] == m[2..][..rest];
      assert Walk(m[..k], depth) == Walk(m[..k][1..], depth);
      assert m[k..] == m[2..][rest..];
    } else {
      var rest := FirstCut(m[1..], if m[0] == '(' then depth + 1 else if m[0] == ')' then depth - 1 else depth);
      k := rest + 1;
      assert m[..k][0] == m[0] && m[..k][1..] == m[1..][..rest] && m[k..] == m[1..][rest..];
    }
  }

  // A text cut before an operator is masked in two.
  lemma CutMask(s: string, k: nat)
    requires Even(s) && k <= |s| && (k < |s| ==> IsOperator(Mask(s, false)[k]))
    ensures Mask(s[..k], false) == Mask(s, false)[..k] && Mask(s[k..], false) == Mask(s, false)[k..]
    ensures Even(s[..k]) && Even(s[k..])
  {
    assert s == s[..k] + s[k..];
    MaskConcat(s[..k], s[k..], false);
    if k < |s| {
      assert Mask(s, false)[k] == Mask(s[k..], EndsInside(s[..k], false))[0];
    }
  }

  lemma GroupInside(before: string, inner: string, after: string)
    requires AllSpace(before) && AllSpace(after) && Balanced(inner)
    requires OperatorsPaired(Mask(before + ("(" + (inner + (")" + after))), false))
    ensures OperatorsPaired(Mask(inner, false))
  {
    SpaceWalks(before, 0);
    QuoteFree(before);
    var m, tail := Mask(inner, false), ")" + after;
    MaskConcat(inner, tail, false);
    var rest := inner + tail;
    assert ("(" + rest)[1..] == rest;
    assert Mask("(" + rest, false) == "(" + Mask(rest, false);
    MaskConcat(before, "(" + rest, false);
    var head := before + "(";
    assert before + ("(" + (m + Mask(tail, false))) == head + (m + Mask(tail, false));
    PairedSplit(head, m + Mask(tail, false));
    assert tail[1..] == after;
    PairedBeforeParenthesis(m, Mask(tail, false));
  }

  // Pairs do not reach over a parenthesis.
  lemma {:induction false} PairedBeforeParenthesis(m: string, tail: string)
    requires OperatorsPaired(m + tail) && tail != "" && !IsOperator(tail[0])
    ensures OperatorsPaired(m)
    decreases |m|
  {
    assert (m + tail)[|m|] == tail[0];
    if m != "" {
      if IsOperator(m[0]) {
        assert (m + tail)[2..] == m[2..] + tail;
        PairedBeforeParenthesis(m[2..], tail);
      } else {
        assert (m + tail)[1..] == m[1..] + tail;
        PairedBeforeParenthesis(m[1..], tail);
      }
    }
  }

  // Every balanced text whose operator characters stand in pairs is the text of an expression.
  lemma {:induction false} Reading(s: string) returns (e: Disjunction)
    requires Balanced(s) && OperatorsPaired(Mask(s, false))
    ensures WellFormed(e) && DisjunctionText(e) == s
    decreases |s|, 1
  {
    var m := Mask(s, false);
    var k := FirstCut(m, 0);
    CutMask(s, k);
    var p := OperandReading(s[..k]);
    if k == |s| {
      e := Last(Only(p));
      assert s[..k] == s;
    } else {
      var tail := s[k..];
      OperatorHere(tail);
      var rest := Reading(tail[2..]);
      assert s == s[..k] + tail && tail == tail[..2] + tail[2..];
      e := if tail[0] == '&' then rest.(term := AndThen(p, rest.term)) else OrElse(Only(p), rest);
      FirstOperand(e);
      assert AfterFirst(e) == tail;
    }
  }

  lemma MaskTail(s: string)
    requires s != "" && s[0] != '\''
    ensures Mask(s, false) == [s[0]] + Mask(s[1..], false) && (Even(s) <==> Even(s[1..]))
  {
  }

  lemma OperatorHere(tail: string)
    requires tail != "" && Even(tail) && IsOperator(Mask(tail, false)[0]) && OperatorsPaired(Mask(tail, false))
    requires Nested(Mask(tail, false), 0) == Some(0)
    ensures |tail| >= 2 && (tail[..2] == "&&" || tail[..2] == "||")
    ensures Balanced(tail[2..]) && OperatorsPaired(Mask(tail[2..], false))
  {
    var m, next := Mask(tail, false), tail[1..];
    MaskTail(tail);
    assert m[1] == Mask(next, false)[0];
    MaskTail(next);
    assert next[1..] == tail[2..] && m == [tail[0]] + ([next[0]] + Mask(tail[2..], false));
    OperatorNested(tail[0], Mask(tail[2..], false));
    assert m[2..] == Mask(tail[2..], false);
  }

  lemma OperatorNested(op: char, m: string)
    requires IsOperator(op)
    ensures Nested([op] + ([op] + m), 0) == Nested(m, 0)
  {
    assert ([op] + ([op] + m))[1..] == [op] + m && ([op] + m)[1..] == m;
  }

  lemma {:induction false} OperandReading(s: string) returns (p: Primary)
    requires OperatorFree(s) && OperatorsPaired(Mask(s, false))
    ensures WellFormedOperand(p) && PrimaryText(p) == s
    decreases |s|, 0
  {
    if IsGroupText(s) {
      var before, inner, after :| AllSpace(before) && AllSpace(after) && Balanced(inner) && s == before + ("(" + (inner + (")" + after)));
      GroupInside(before, inner, after);
      var e := Reading(inner);
      p := Group(before, e, after);
    } else {
      p := Clause(s);
    }
  }

  // An operator-free text before `&&` is the first conjunct.
  lemma SplitFirst(a: string, rest: string)
    requires OperatorFree(a)
    ensures TopLevelConjuncts(a + ("&&" + rest)) == Prepend([Trim(a)], TopLevelConjuncts(rest))
  {
    var mrest := Mask(rest, false);
    MaskConcat(a, "&&" + rest, false);
    MaskConcat("&&", rest, false);
    OperatorBalanced("&&");
    PassOver("", a, Mask(a, false), "&&" + rest, "&&" + mrest, 0);
    assert "" + a == a;
    OperatorRead(a, rest, mrest);
  }

  lemma SplitOnly(a: string)
    requires OperatorFree(a)
    ensures TopLevelConjuncts(a) == Some([Trim(a)])
  {
    PassOver("", a, Mask(a, false), "", "", 0);
    assert "" + a == a && a + "" == a && Mask(a, false) + "" == Mask(a, false);
  }

  // An accepted guard is balanced.
  lemma {:induction false} SplitBalanced(piece: string, raw: string, masked: string, depth: nat)
    requires |raw| == |masked| && ConjunctsFrom(piece, raw, masked, depth).Some?
    ensures Nested(masked, depth) == Some(0)
    decreases |raw|
  {
    if raw != "" {
      if masked[0] == '(' {
        SplitBalanced(piece + [raw[0]], raw[1..], masked[1..], depth + 1);
      } else if masked[0] == ')' {
        SplitBalanced(piece + [raw[0]], raw[1..], masked[1..], depth - 1);
      } else if depth == 0 && Pair(masked, '&') {
        SplitBalanced("", raw[2..], masked[2..], 0);
        assert masked[1..][1..] == masked[2..] && masked[1..][0] == '&';
      } else {
        SplitBalanced(piece + [raw[0]], raw[1..], masked[1..], depth);
      }
    }
  }

  // ---- the loop ----

  // What the scan still has to read.
  function Ahead(guard: string, masked: string, start: nat, index: nat, depth: nat): Option<seq<string>>
    requires |guard| == |masked| && start <= index <= |guard|
  {
    ConjunctsFrom(guard[start..index], guard[index..], masked[index..], depth)
  }

  lemma AheadNext(guard: string, masked: string, start: nat, index: nat, depth: nat)
    requires |guard| == |masked| && start <= index < |guard|
    ensures ConjunctsFrom(guard[start..index] + [guard[index]], guard[index..][1..], masked[index..][1..], depth)
            == Ahead(guard, masked, start, index + 1, depth)
  {
    assert guard[start..index] + [guard[index]] == guard[start..index + 1];
    assert guard[index..][1..] == guard[index + 1..];
    assert masked[index..][1..] == masked[index + 1..];
  }

  lemma AheadAfterAnd(guard: string, masked: string, start: nat, index: nat)
    requires |guard| == |masked| && start <= index < |guard| && Pair(masked[index..], '&')
    ensures Ahead(guard, masked, start, index, 0) == Prepend([Trim(guard[start..index])], Ahead(guard, masked, index + 2, index + 2, 0))
  {
    SplitHere(guard[start..index], guard[index..], masked[index..]);
    DropTwice(guard, index);
    DropTwice(masked, index);
    assert guard[index + 2..index + 2] == "";
  }

  lemma DropTwice(s: string, index: nat)
    requires index + 2 <= |s|
    ensures s[index..][2..] == s[index + 2..]
  {
  }

  lemma SplitHere(piece: string, raw: string, masked: string)
    requires |raw| == |masked| && Pair(masked, '&')
    ensures ConjunctsFrom(piece, raw, masked, 0) == Prepend([Trim(piece)], ConjunctsFrom("", raw[2..], masked[2..], 0))
  {
  }

  lemma AheadStep(guard: string, masked: string, start: nat, index: nat, depth: nat)
    requires |guard| == |masked| && start <= index < |guard|
    ensures Ahead(guard, masked, start, index, depth)
            == if masked[index] == '(' then Ahead(guard, masked, start, index + 1, depth + 1)
               else if masked[index] == ')' then (if depth == 0 then None else Ahead(guard, masked, start, index + 1, depth - 1))
               else if depth == 0 && Pair(masked[index..], '|') then None
               else if depth == 0 && Pair(masked[index..], '&') then
                 Prepend([Trim(guard[start..index])], Ahead(guard, masked, index + 2, index + 2, 0))
               else Ahead(guard, masked, start, index + 1, depth)
  {
    var character := masked[index];
    assert masked[index..][0] == character;
    if depth == 0 && Pair(masked[index..], '&') {
      AheadAfterAnd(guard, masked, start, index);
    } else if character == ')' && depth == 0 {
    } else {
      AheadNext(guard, masked, start, index, if character == '(' then depth + 1 else if character == ')' then depth - 1 else depth);
    }
  }

  lemma AheadStart(guard: string, masked: string)
    requires |guard| == |masked|
    ensures Ahead(guard, masked, 0, 0, 0) == ConjunctsFrom("", guard, masked, 0)
  {
    assert guard[0..0] == "" && guard[0..] == guard && masked[0..] == masked;
  }

  function Prepend(conjuncts: seq<string>, rest: Option<seq<string>>): Option<seq<string>> {
    if rest.None? then None else Some(conjuncts + rest.value)
  }

  lemma PrependAgain(conjuncts: seq<string>, piece: string, rest: Option<seq<string>>)
    ensures Prepend([], rest) == rest
    ensures Prepend(conjuncts, Prepend([piece], rest)) == Prepend(conjuncts + [piece], rest)
  {
    if rest.Some? {
      assert [] + rest.value == rest.value;
      assert conjuncts + ([piece] + rest.value) == conjuncts + [piece] + rest.value;
    }
  }

  // The scan itself: depth, start and index move over the masked guard.
  method SplitGuard(guard: string) returns (result: Option<seq<string>>)
    ensures result == TopLevelConjuncts(guard)
  {
    if EndsInside(guard, false) {
      return None;
    }
    var masked := Mask(guard, false);
    var conjuncts: seq<string> := [];
    var depth, start, index := 0, 0, 0;
    AheadStart(guard, masked);
    PrependAgain([], "", Ahead(guard, masked, 0, 0, 0));
    while index < |masked|
      invariant 0 <= start <= index <= |masked| && depth >= 0
      invariant TopLevelConjuncts(guard) == Prepend(conjuncts, Ahead(guard, masked, start, index, depth))
    {
      AheadStep(guard, masked, start, index, depth);
      var character := masked[index];
      if character == '(' {
        depth := depth + 1;
      } else if character == ')' {
        depth := depth - 1;
        if depth < 0 {
          return None;
        }
      } else if depth == 0 && Pair(masked[index..], '|') {
        return None;
      } else if depth == 0 && Pair(masked[index..], '&') {
        PrependAgain(conjuncts, Trim(guard[start..index]), Ahead(guard, masked, index + 2, index + 2, 0));
        conjuncts := conjuncts + [Trim(guard[start..index])];
        start := index + 2;
        index := index + 1;
      }
      index := index + 1;
    }
    assert guard[start..index] == guard[start..] && guard[index..] == "";
    if depth != 0 {
      return None;
    }
    result := Some(conjuncts + [Trim(guard[start..])]);
  }
}
