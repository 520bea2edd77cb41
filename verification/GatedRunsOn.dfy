/**
 The gated runner selection (packages/cli/src/fleet-routing.ts, renderGatedRunsOn and parseGatedRunsOn): what is
 rendered is read back, and whatever is accepted selects the self-hosted labels only under the switch, the owner and
 the workflow clause, however GitHub reads the text.
 */
module GatedRunsOn {
  import opened Contracts
  import opened Text
  import opened Guards
  import opened Yaml
  import opened Labels

  datatype Gate = Gate(enrollmentId: string, repository: string, workflowPath: string, runnerLabel: string, ownerUserId: int)

  datatype Selection = Selection(runsOn: seq<string>, routingSwitch: string)

  const MAX_SAFE_INTEGER := 9_007_199_254_740_991

  // Repository and path sit in a quoted literal and a format() template, so they must need no escaping.
  predicate NeedsNoEscape(s: string) { '\'' !in s && '{' !in s && '}' !in s }

  predicate ValidGate(g: Gate) {
    && 0 < g.ownerUserId <= MAX_SAFE_INTEGER && NeedsNoEscape(g.repository) && NeedsNoEscape(g.workflowPath)
    && ValidId(g.enrollmentId)
  }

  function Decimal(n: nat): (r: string)
    ensures r != "" && forall k :: 0 <= k < |r| ==> IsDigit(r[k])
  {
    var digit := ['0' + (n % 10) as char];
    if n < 10 then digit else Decimal(n / 10) + digit
  }

  function LabelsJson(g: Gate): string { JsonList(RequiredLabels(g.runnerLabel)) }

  function SwitchFor(id: string): string { "CIRUJANO_RUNNER_" + id }

  function Quoted(s: string): string { ['\''] + s + ['\''] }

  // The texts a gated selection is made of.
  datatype Clauses = Clauses(switched: string, owner: string, pullRequest: string, workflow: string, labels: string, fallback: string)

  function SwitchClause(g: Gate): string { "vars." + SwitchFor(g.enrollmentId) + " == " + Quoted("on") }

  function OwnerClause(g: Gate): string
    requires ValidGate(g)
  {
    "github.actor_id == " + Quoted(Decimal(g.ownerUserId))
  }

  function WorkflowRefClause(g: Gate): string {
    "github.workflow_ref == format" + ("(" + (Quoted(g.repository + "/" + g.workflowPath + "@{0}") + ", github.ref" + ")"))
  }

  // A pull request must come from the owner, out of the repository itself.
  function PullRequestText(g: Gate): string
    requires ValidGate(g)
  {
    "github.event_name != " + Quoted("pull_request")
    + (" || " + ("(" + ("github.event.pull_request.user.id == " + Decimal(g.ownerUserId)
                        + (" && " + ("github.event.pull_request.head.repo.id" + " == github.event.repository.id")) + ")")))
  }

  function ClausesOf(g: Gate): Clauses
    requires ValidGate(g)
  {
    Clauses(SwitchClause(g), OwnerClause(g), PullRequestText(g), WorkflowRefClause(g), LabelsJson(g), Quoted("ubuntu-latest"))
  }

  // ---- writing ----

  function GuardText(c: Clauses): string {
    (c.owner + " ") + ("&&" + ((" " + ("(" + (c.pullRequest + (")" + " ")))) + ("&&" + (" " + c.workflow))))
  }

  function Prefix(c: Clauses): string { c.switched + " && (" }

  const TAIL_HEAD := ") && fromJSON('"
  const TAIL_MIDDLE := "') || "

  function Inner(c: Clauses): string {
    Prefix(c) + (GuardText(c) + (TAIL_HEAD + (c.labels + (TAIL_MIDDLE + c.fallback))))
  }

  function Delimited(inner: string): string { "${{ " + inner + " }}" }

  // None where rendering refuses the gate.
  function Render(g: Gate): Option<string> {
    if ValidGate(g) then Some(Delimited(Inner(ClausesOf(g)))) else None
  }

  // ---- reading ----

  datatype Tail = Tail(index: nat, labels: string, rest: string)

  function QuoteAt(s: string): (n: nat)
    ensures n <= |s| && '\'' !in s[..n] && (n < |s| ==> s[n] == '\'')
  {
    if s == "" || s[0] == '\'' then 0
    else
      assert s[..QuoteAt(s[1..]) + 1] == [s[0]] + s[1..][..QuoteAt(s[1..])];
      QuoteAt(s[1..]) + 1
  }

  predicate IsLineEnd(c: char) { c as int in {0xA, 0xD, 0x2028, 0x2029} }

  // Whether /\) && fromJSON\('([^']*)'\) \|\| (.+)$/ matches from this index on.
  function TailAt(s: string, i: nat): Option<Tail>
    requires i <= |s|
  {
    if !(TAIL_HEAD <= s[i..]) then None
    else
      var after := s[i..][|TAIL_HEAD|..];
      var n := QuoteAt(after);
      if !(TAIL_MIDDLE <= after[n..]) then None
      else
        var rest := after[n..][|TAIL_MIDDLE|..];
        if rest == "" || exists k :: 0 <= k < |rest| && IsLineEnd(rest[k]) then None
        else Some(Tail(i, after[..n], rest))
  }

  function FindTail(s: string, from: nat): (r: Option<Tail>)
    requires from <= |s|
    ensures r.Some? ==> from <= r.value.index <= |s| && r == TailAt(s, r.value.index)
    decreases |s| - from
  {
    if TailAt(s, from).Some? then TailAt(s, from)
    else if from == |s| then None else FindTail(s, from + 1)
  }

  // The text between `${{ ` and ` }}`.
  function InnerOf(expression: string): string {
    if |expression| < 7 then "" else expression[4..|expression| - 3]
  }

  function GuardOf(inner: string, prefix: string, index: nat): string
    requires index <= |inner|
  {
    if |prefix| <= index then inner[|prefix|..index] else ""
  }

  // The one shape that is accepted; the guard may be stricter than the rendered one.
  predicate Accepts(expression: string, c: Clauses) {
    && "${{ " <= expression && EndsWith(expression, " }}")
    && var inner := InnerOf(expression);
       && !Contains(inner, "${{") && !Contains(inner, "}}") && Prefix(c) <= inner
       && var tail := FindTail(inner, 0);
          && tail.Some? && tail.value.rest == c.fallback && tail.value.labels == c.labels
          && var conjuncts := TopLevelConjuncts(GuardOf(inner, Prefix(c), tail.value.index));
             conjuncts.Some? && c.owner in conjuncts.value && c.workflow in conjuncts.value
  }

  function SelectionOf(g: Gate): Selection { Selection(RequiredLabels(g.runnerLabel), SwitchFor(g.enrollmentId)) }

  function Parse(expression: string, g: Gate): Option<Selection> {
    if ValidGate(g) && Accepts(expression, ClausesOf(g)) then Some(SelectionOf(g)) else None
  }

  // ---- texts without operators ----

  predicate PlainChar(c: char) { c != '\'' && c != '(' && c != ')' && c != '&' && c != '|' }

  predicate IsPlain(s: string) { forall k :: 0 <= k < |s| ==> PlainChar(s[k]) }

  lemma {:induction false} PlainFree(s: string)
    requires IsPlain(s)
    ensures OperatorFree(s)
  {
    QuoteFree(s);
    PlainWalks(s);
  }

  lemma {:induction false} PlainWalks(s: string)
    requires IsPlain(s)
    ensures Walk(s, 0) == Some(0)
  {
    if s != "" {
      PlainWalks(s[1..]);
    }
  }

  lemma {:induction false} QuoteFreeBody(b: string)
    requires '\'' !in b
    ensures LiteralBody(b)
  {
    if b != "" {
      QuoteFreeBody(b[1..]);
    }
  }

  lemma {:induction false} UnderscoresWalk(n: nat)
    ensures Walk(Underscores(n), 0) == Some(0)
  {
    if n > 0 {
      UnderscoresWalk(n - 1);
    }
  }

  lemma {:induction false} QuotedFree(b: string)
    requires '\'' !in b
    ensures OperatorFree(Quoted(b))
  {
    QuoteFreeBody(b);
    LiteralMasked(b);
    UnderscoresWalk(|b| + 2);
  }

  lemma {:induction false} DecimalPlain(n: nat)
    ensures IsPlain(Decimal(n))
  {
  }

  lemma ComparedFree(head: string, body: string)
    requires IsPlain(head) && '\'' !in body
    ensures OperatorFree(head + Quoted(body))
  {
    PlainFree(head);
    QuotedFree(body);
    JoinFree(head, Quoted(body));
  }

  lemma CallFree(head: string, body: string, rest: string)
    requires IsPlain(head) && '\'' !in body && IsPlain(rest)
    ensures OperatorFree(head + ("(" + (Quoted(body) + rest + ")")))
  {
    QuotedFree(body);
    PlainFree(rest);
    JoinFree(Quoted(body), rest);
    FreeIsBalanced(Quoted(body) + rest);
    GroupFree(Quoted(body) + rest);
    PlainFree(head);
    JoinFree(head, "(" + (Quoted(body) + rest + ")"));
  }

  lemma EitherBalanced(left: string, first: string, second: string)
    requires OperatorFree(left) && IsPlain(first) && IsPlain(second)
    ensures Balanced(left + (" || " + ("(" + (first + (" && " + second) + ")"))))
  {
    PlainFree(first);
    PlainFree(second);
    FreeIsBalanced(first);
    FreeIsBalanced(second);
    FreeIsBalanced(left);
    SpacedBalanced("&&");
    SpacedBalanced("||");
    JoinBalanced(" && ", second);
    JoinBalanced(first, " && " + second);
    var both := first + (" && " + second);
    GroupFree(both);
    FreeIsBalanced("(" + (both + ")"));
    JoinBalanced(" || ", "(" + (both + ")"));
    JoinBalanced(left, " || " + ("(" + (both + ")")));
  }

  lemma SpacedBalanced(op: string)
    requires op == "&&" || op == "||"
    ensures Balanced(" " + op + " ")
  {
    OperatorBalanced(op);
    PlainFree(" ");
    FreeIsBalanced(" ");
    JoinBalanced(" ", op);
    JoinBalanced(" " + op, " ");
  }

  // ---- what the clauses of a gate are like ----

  predicate Solid(s: string) { s != "" && !IsSpace(s[0]) && !IsSpace(s[|s| - 1]) && s[0] != '(' }

  // Every clause is one operand; the pull-request condition only stands in parentheses.
  predicate Proper(c: Clauses) {
    && OperatorFree(c.switched) && OperatorFree(c.owner) && OperatorFree(c.workflow) && OperatorFree(c.fallback)
    && Solid(c.switched) && Solid(c.owner) && Solid(c.workflow) && Solid(c.fallback)
    && Balanced(c.pullRequest)
  }

  // Operator characters in them stand in pairs.
  predicate WellSpelled(c: Clauses) {
    Spelled(c.switched) && Spelled(c.owner) && Spelled(c.pullRequest) && Spelled(c.workflow) && Spelled(c.fallback)
  }

  lemma PlainJoin(a: string, b: string)
    requires IsPlain(a) && IsPlain(b)
    ensures IsPlain(a + b)
  {
  }

  predicate IsBrace(c: char) { c == '{' || c == '}' }

  // Plain text without braces.
  predicate Bare(s: string) { IsPlain(s) && forall k :: 0 <= k < |s| ==> !IsBrace(s[k]) }

  lemma BareJoin(a: string, b: string)
    requires Bare(a) && Bare(b)
    ensures Bare(a + b)
  {
  }

  lemma BareWords()
    ensures Bare("vars.") && Bare("CIRUJANO_RUNNER_") && Bare(" == ") && Bare("on")
    ensures Bare("github.actor_id == ")
  {
  }

  lemma BareEvent()
    ensures Bare("github.event_name != ") && Bare("pull_request")
  {
  }

  lemma BareUser()
    ensures Bare("github.event.pull_request.user.id == ")
  {
  }

  lemma BareHeadRepository()
    ensures Bare("github.event.pull_request.head.repo.id")
  {
  }

  lemma BareRepository()
    ensures Bare(" == github.event.repository.id")
  {
  }

  lemma BarePaths()
    ensures Bare("github.workflow_ref == format") && Bare(", github.ref") && Bare("/")
  {
  }

  lemma IdBare(id: string)
    requires ValidId(id)
    ensures Bare(id)
  {
    assert forall k :: 1 <= k < |id| ==> IsDigit(id[1..][k - 1]) && id[k] == id[1..][k - 1];
  }

  lemma SwitchProper(g: Gate)
    requires ValidGate(g)
    ensures OperatorFree(SwitchClause(g)) && Solid(SwitchClause(g))
  {
    BareWords();
    IdBare(g.enrollmentId);
    PlainJoin("CIRUJANO_RUNNER_", g.enrollmentId);
    PlainJoin("vars.", SwitchFor(g.enrollmentId));
    PlainJoin("vars." + SwitchFor(g.enrollmentId), " == ");
    ComparedFree("vars." + SwitchFor(g.enrollmentId) + " == ", "on");
  }

  lemma OwnerProper(g: Gate)
    requires ValidGate(g)
    ensures OperatorFree(OwnerClause(g)) && Solid(OwnerClause(g))
  {
    BareWords();
    DecimalPlain(g.ownerUserId);
    ComparedFree("github.actor_id == ", Decimal(g.ownerUserId));
  }

  lemma WorkflowProper(g: Gate)
    requires ValidGate(g)
    ensures OperatorFree(WorkflowRefClause(g)) && Solid(WorkflowRefClause(g))
  {
    BarePaths();
    CallFree("github.workflow_ref == format", g.repository + "/" + g.workflowPath + "@{0}", ", github.ref");
  }

  lemma PullRequestProper(g: Gate)
    requires ValidGate(g)
    ensures Balanced(PullRequestText(g))
  {
    BareEvent();
    BareUser();
    BareHeadRepository();
    BareRepository();
    DecimalPlain(g.ownerUserId);
    ComparedFree("github.event_name != ", "pull_request");
    PlainJoin("github.event.pull_request.user.id == ", Decimal(g.ownerUserId));
    PlainJoin("github.event.pull_request.head.repo.id", " == github.event.repository.id");
    EitherBalanced("github.event_name != " + Quoted("pull_request"),
                   "github.event.pull_request.user.id == " + Decimal(g.ownerUserId),
                   "github.event.pull_request.head.repo.id" + " == github.event.repository.id");
  }

  lemma ClausesProper(g: Gate)
    requires ValidGate(g)
    ensures Proper(ClausesOf(g))
  {
    SwitchProper(g);
    OwnerProper(g);
    WorkflowProper(g);
    PullRequestProper(g);
    QuotedFree("ubuntu-latest");
  }

  // ---- what an accepted text means ----

  lemma TailParts(s: string, i: nat)
    requires i <= |s| && TailAt(s, i).Some?
    ensures var tail := TailAt(s, i).value;
            && tail.index == i && '\'' !in tail.labels
            && s[i..] == TAIL_HEAD + (tail.labels + (TAIL_MIDDLE + tail.rest))
  {
    var from := s[i..];
    var after := from[|TAIL_HEAD|..];
    var n := QuoteAt(after);
    PrefixRest(TAIL_HEAD, from);
    PrefixRest(after[..n], after);
    PrefixRest(TAIL_MIDDLE, after[n..]);
  }

  lemma PrefixRest(p: string, s: string)
    requires p <= s
    ensures s == p + s[|p|..]
  {
  }

  lemma CutAt(s: string, prefix: string, index: nat)
    requires prefix <= s && |prefix| <= index <= |s|
    ensures s == prefix + (s[|prefix|..index] + s[index..])
  {
  }

  lemma {:induction false} EmptyGuard()
    ensures TopLevelConjuncts("") == Some([""])
  {
    assert Trim("") == "";
  }

  // An accepted text is the canonical one around a guard that holds the two clauses.
  lemma AcceptedShape(expression: string, c: Clauses) returns (guard: string)
    requires Accepts(expression, c) && c.owner != ""
    ensures InnerOf(expression) == Prefix(c) + (guard + (TAIL_HEAD + (c.labels + (TAIL_MIDDLE + c.fallback))))
    ensures '\'' !in c.labels
    ensures TopLevelConjuncts(guard).Some?
    ensures c.owner in TopLevelConjuncts(guard).value && c.workflow in TopLevelConjuncts(guard).value
  {
    var inner, prefix := InnerOf(expression), Prefix(c);
    var index := FindTail(inner, 0).value.index;
    guard := GuardOf(inner, prefix, index);
    EmptyGuard();
    TailParts(inner, index);
    CutAt(inner, prefix, index);
  }

  function JsonClause(labels: string): string { "fromJSON" + ("(" + (Quoted(labels) + ")")) }

  lemma PlainJson()
    ensures IsPlain("fromJSON")
  {
  }

  lemma JsonProper(labels: string)
    requires '\'' !in labels
    ensures OperatorFree(JsonClause(labels)) && Solid(JsonClause(labels))
  {
    QuotedFree(labels);
    FreeIsBalanced(Quoted(labels));
    GroupFree(Quoted(labels));
    PlainJson();
    PlainFree("fromJSON");
    JoinFree("fromJSON", "(" + (Quoted(labels) + ")"));
  }

  // The accepted text as operands and operators.
  function Operators(switched: string, guard: string, json: string, fallback: string): string {
    (switched + " ") + ("&&" + ((" " + ("(" + (guard + (")" + " ")))) + ("&&" + ((" " + json + " ") + ("||" + (" " + fallback))))))
  }

  lemma TailRegrouped(labels: string, fallback: string)
    ensures TAIL_HEAD + (labels + (TAIL_MIDDLE + fallback))
            == ")" + (" " + ("&&" + ((" " + JsonClause(labels) + " ") + ("||" + (" " + fallback)))))
  {
    var last := "||" + (" " + fallback);
    assert TAIL_MIDDLE + fallback == ['\''] + (")" + (" " + last));
    assert TAIL_HEAD == ")" + (" " + ("&&" + (" " + ("fromJSON" + ("(" + ['\'']))))) ;
    assert labels + (['\''] + (")" + (" " + last))) == (labels + ['\'']) + (")" + (" " + last));
    assert " " + JsonClause(labels) + " " + last
           == " " + ("fromJSON" + ("(" + (['\''] + ((labels + ['\'']) + (")" + (" " + last))))));
  }

  lemma Regrouped(c: Clauses, guard: string)
    ensures Prefix(c) + (guard + (TAIL_HEAD + (c.labels + (TAIL_MIDDLE + c.fallback))))
            == Operators(c.switched, guard, JsonClause(c.labels), c.fallback)
  {
    TailRegrouped(c.labels, c.fallback);
    var rest := "&&" + ((" " + JsonClause(c.labels) + " ") + ("||" + (" " + c.fallback)));
    assert Prefix(c) == (c.switched + " ") + ("&&" + (" " + "("));
    assert guard + (")" + (" " + rest)) == guard + (")" + " ") + rest;
    assert (" " + ("(" + (guard + (")" + " ")))) + rest == " " + ("(" + (guard + (")" + " ") + rest));
  }

  // The operands of any reading of an accepted text.
  lemma ReadOperators(e: Disjunction, switched: string, guard: string, json: string, fallback: string) returns (inner: Disjunction)
    requires WellFormed(e) && DisjunctionText(e) == Operators(switched, guard, json, fallback)
    requires OperatorFree(switched + " ") && Balanced(guard) && OperatorFree(" " + json + " ") && OperatorFree(" " + fallback)
    ensures WellFormed(inner) && DisjunctionText(inner) == guard
    ensures e.term.AndThen? && PrimaryText(e.term.operand) == switched + " " && WellFormedOperand(e.term.operand)
    ensures e.term.rest.AndThen? && e.term.rest.operand.Group? && e.term.rest.operand.inner == inner
    ensures e.term.rest.rest.Only? && PrimaryText(e.term.rest.rest.operand) == " " + json + " "
    ensures WellFormedOperand(e.term.rest.rest.operand)
    ensures e.OrElse? && e.others.Last? && e.others.term.Only?
    ensures PrimaryText(e.others.term.operand) == " " + fallback && WellFormedOperand(e.others.term.operand)
  {
    var last := " " + fallback;
    var third := (" " + json + " ") + ("||" + last);
    var group := " " + ("(" + (guard + (")" + " ")));
    ReadAnd(e, switched + " ", group + ("&&" + third));
    var e2 := e.(term := e.term.rest);
    GroupTextFree(" ", guard, " ");
    ReadAnd(e2, group, third);
    ReadGroup(e2.term.operand, " ", guard, " ");
    var e3 := e2.(term := e2.term.rest);
    ReadOr(e3, " " + json + " ", last);
    ReadEnd(e.others, last);
    inner := e.term.rest.operand.inner;
  }

  // An operand that is a solid clause between spaces is evaluated as that clause.
  lemma ClauseValue(p: Primary, before: string, clause: string, after: string, env: string -> Value)
    requires WellFormedOperand(p) && PrimaryText(p) == before + clause + after
    requires AllSpace(before) && AllSpace(after) && Solid(clause)
    ensures PrimaryValue(p, env) == env(clause)
  {
    TrimPadded(before, clause, after);
    PlainOperand(p, env);
  }

  lemma OperatorValues(e: Disjunction, c: Clauses, json: string, env: string -> Value)
    requires Solid(c.switched) && Solid(json) && Solid(c.fallback)
    requires e.term.AndThen? && e.term.rest.AndThen? && e.term.rest.operand.Group? && e.term.rest.rest.Only?
    requires e.OrElse? && e.others.Last? && e.others.term.Only?
    requires WellFormedOperand(e.term.operand) && PrimaryText(e.term.operand) == c.switched + " "
    requires WellFormedOperand(e.term.rest.rest.operand) && PrimaryText(e.term.rest.rest.operand) == " " + json + " "
    requires WellFormedOperand(e.others.term.operand) && PrimaryText(e.others.term.operand) == " " + c.fallback
    ensures DisjunctionValue(e, env)
            == if env(c.switched).truthy && DisjunctionValue(e.term.rest.operand.inner, env).truthy && env(json).truthy
               then env(json) else env(c.fallback)
  {
    assert "" + c.switched + " " == c.switched + " ";
    assert " " + c.fallback + "" == " " + c.fallback;
    ClauseValue(e.term.operand, "", c.switched, " ", env);
    ClauseValue(e.term.rest.rest.operand, " ", json, " ", env);
    ClauseValue(e.others.term.operand, " ", c.fallback, "", env);
    var second := e.term.rest;
    assert ConjunctionValue(second.rest, env) == env(json);
    assert ConjunctionValue(second, env)
           == if DisjunctionValue(second.operand.inner, env).truthy then env(json) else DisjunctionValue(second.operand.inner, env);
    assert DisjunctionValue(e.others, env) == env(c.fallback);
  }

  lemma OperandsFree(c: Clauses)
    requires Proper(c) && '\'' !in c.labels
    ensures OperatorFree(c.switched + " ") && OperatorFree(" " + JsonClause(c.labels) + " ") && OperatorFree(" " + c.fallback)
  {
    JsonProper(c.labels);
    SpaceFree(" ");
    JoinFree(c.switched, " ");
    JoinFree(" ", JsonClause(c.labels));
    JoinFree(" " + JsonClause(c.labels), " ");
    JoinFree(" ", c.fallback);
  }

  lemma AcceptedReading(expression: string, c: Clauses, e: Disjunction, env: string -> Value) returns (inner: Disjunction)
    requires Proper(c) && Accepts(expression, c) && WellFormed(e) && DisjunctionText(e) == InnerOf(expression)
    ensures DisjunctionValue(inner, env).truthy ==> env(c.owner).truthy && env(c.workflow).truthy
    ensures var json := env(JsonClause(c.labels));
            DisjunctionValue(e, env)
            == if env(c.switched).truthy && DisjunctionValue(inner, env).truthy && json.truthy then json else env(c.fallback)
  {
    var guard := AcceptedShape(expression, c);
    Regrouped(c, guard);
    OperandsFree(c);
    JsonProper(c.labels);
    SplitBalanced("", guard, Mask(guard, false), 0);
    inner := ReadOperators(e, c.switched, guard, JsonClause(c.labels), c.fallback);
    OperatorValues(e, c, JsonClause(c.labels), env);
    if DisjunctionValue(inner, env).truthy {
      ConjunctHolds(inner, c.owner, env);
      ConjunctHolds(inner, c.workflow, env);
    }
  }

  // However an accepted text is read, it yields the self-hosted labels only while the switch, the owner clause and
  // the workflow clause are all true, and otherwise the hosted fallback.
  lemma SelectsOnlyUnderGuard(expression: string, g: Gate, e: Disjunction, env: string -> Value)
    requires Parse(expression, g).Some? && WellFormed(e) && DisjunctionText(e) == InnerOf(expression)
    ensures var c := ClausesOf(g);
            || DisjunctionValue(e, env) == env(c.fallback)
            || (&& DisjunctionValue(e, env) == env(JsonClause(LabelsJson(g)))
                && env(c.switched).truthy && env(c.owner).truthy && env(c.workflow).truthy)
  {
    ClausesProper(g);
    var inner := AcceptedReading(expression, ClausesOf(g), e, env);
  }

  // ---- an accepted text has a reading ----

  lemma {:induction false} PlainSpelled(s: string)
    requires IsPlain(s)
    ensures Spelled(s)
  {
    QuoteFree(s);
    NoOperatorsPaired(s);
  }

  lemma {:induction false} UnderscoresPlain(n: nat)
    ensures forall k :: 0 <= k < n ==> Underscores(n)[k] == '_'
  {
    if n > 0 {
      UnderscoresPlain(n - 1);
    }
  }

  lemma QuotedSpelled(b: string)
    requires '\'' !in b
    ensures Spelled(Quoted(b))
  {
    QuoteFreeBody(b);
    LiteralMasked(b);
    UnderscoresPlain(|b| + 2);
    NoOperatorsPaired(Underscores(|b| + 2));
  }

  lemma ParenthesesSpelled(inner: string)
    requires Spelled(inner)
    ensures Spelled("(" + (inner + ")"))
  {
    SeparatorsSpelled();
    SpelledJoin(inner, ")");
    SpelledJoin("(", inner + ")");
  }

  lemma OperatorSpelled(op: string)
    requires op == "&&" || op == "||"
    ensures Spelled(op)
  {
    QuoteFree(op);
    assert op[2..] == "";
  }

  lemma SeparatorsSpelled()
    ensures Spelled("(") && Spelled(")") && Spelled(" ") && Spelled("&&") && Spelled("||") && Spelled(" && ") && Spelled(" || ")
  {
    QuoteFree("(");
    QuoteFree(")");
    NoOperatorsPaired("(");
    NoOperatorsPaired(")");
    PlainSpelled(" ");
    OperatorSpelled("&&");
    OperatorSpelled("||");
    SpelledJoin(" ", "&&");
    SpelledJoin(" " + "&&", " ");
    SpelledJoin(" ", "||");
    SpelledJoin(" " + "||", " ");
    assert " " + "&&" + " " == " && " && " " + "||" + " " == " || ";
  }

  lemma ComparedSpelled(head: string, body: string)
    requires IsPlain(head) && '\'' !in body
    ensures Spelled(head + Quoted(body))
  {
    PlainSpelled(head);
    QuotedSpelled(body);
    SpelledJoin(head, Quoted(body));
  }

  lemma CallSpelled(head: string, body: string, rest: string)
    requires IsPlain(head) && '\'' !in body && IsPlain(rest)
    ensures Spelled(head + ("(" + (Quoted(body) + rest + ")")))
  {
    QuotedSpelled(body);
    PlainSpelled(rest);
    PlainSpelled(head);
    SpelledJoin(Quoted(body), rest);
    ParenthesesSpelled(Quoted(body) + rest);
    SpelledJoin(head, "(" + (Quoted(body) + rest + ")"));
  }

  lemma EitherSpelled(left: string, first: string, second: string)
    requires Spelled(left) && IsPlain(first) && IsPlain(second)
    ensures Spelled(left + (" || " + ("(" + (first + (" && " + second) + ")"))))
  {
    SeparatorsSpelled();
    PlainSpelled(first);
    PlainSpelled(second);
    SpelledJoin(" && ", second);
    SpelledJoin(first, " && " + second);
    var both := first + (" && " + second);
    ParenthesesSpelled(both);
    SpelledJoin(" || ", "(" + (both + ")"));
    SpelledJoin(left, " || " + ("(" + (both + ")")));
  }

  lemma PullRequestSpelled(g: Gate)
    requires ValidGate(g)
    ensures Spelled(PullRequestText(g))
  {
    BareEvent();
    BareUser();
    BareHeadRepository();
    BareRepository();
    DecimalPlain(g.ownerUserId);
    ComparedSpelled("github.event_name != ", "pull_request");
    PlainJoin("github.event.pull_request.user.id == ", Decimal(g.ownerUserId));
    PlainJoin("github.event.pull_request.head.repo.id", " == github.event.repository.id");
    EitherSpelled("github.event_name != " + Quoted("pull_request"),
                  "github.event.pull_request.user.id == " + Decimal(g.ownerUserId),
                  "github.event.pull_request.head.repo.id" + " == github.event.repository.id");
  }

  lemma SwitchPlain(g: Gate)
    requires ValidGate(g)
    ensures IsPlain("vars." + SwitchFor(g.enrollmentId) + " == ")
  {
    BareWords();
    IdBare(g.enrollmentId);
    PlainJoin("CIRUJANO_RUNNER_", g.enrollmentId);
    PlainJoin("vars.", SwitchFor(g.enrollmentId));
    PlainJoin("vars." + SwitchFor(g.enrollmentId), " == ");
  }

  lemma ClausesSpelled(g: Gate)
    requires ValidGate(g)
    ensures WellSpelled(ClausesOf(g))
  {
    BareWords();
    BarePaths();
    SwitchPlain(g);
    ComparedSpelled("vars." + SwitchFor(g.enrollmentId) + " == ", "on");
    ComparedSpelled("github.actor_id == ", Decimal(g.ownerUserId));
    PullRequestSpelled(g);
    CallSpelled("github.workflow_ref == format", g.repository + "/" + g.workflowPath + "@{0}", ", github.ref");
    QuotedSpelled("ubuntu-latest");
  }

  lemma JsonSpelled(labels: string)
    requires '\'' !in labels
    ensures Spelled(JsonClause(labels))
  {
    PlainJson();
    PlainSpelled("fromJSON");
    QuotedSpelled(labels);
    ParenthesesSpelled(Quoted(labels));
    SpelledJoin("fromJSON", "(" + (Quoted(labels) + ")"));
  }

  lemma OperatorsSpelled(switched: string, guard: string, json: string, fallback: string)
    requires Spelled(switched) && Spelled(guard) && Spelled(json) && Spelled(fallback)
    ensures Spelled(Operators(switched, guard, json, fallback))
  {
    SeparatorsSpelled();
    SpelledJoin(" ", fallback);
    SpelledJoin("||", " " + fallback);
    SpelledJoin(" ", json);
    SpelledJoin(" " + json, " ");
    var third := (" " + json + " ") + ("||" + (" " + fallback));
    SpelledJoin(" " + json + " ", "||" + (" " + fallback));
    SpelledJoin("&&", third);
    SpelledJoin(")", " ");
    SpelledJoin(guard, ")" + " ");
    SpelledJoin("(", guard + (")" + " "));
    var group := " " + ("(" + (guard + (")" + " ")));
    SpelledJoin(" ", "(" + (guard + (")" + " ")));
    SpelledJoin(group, "&&" + third);
    SpelledJoin("&&", group + ("&&" + third));
    SpelledJoin(switched, " ");
    SpelledJoin(switched + " ", "&&" + (group + ("&&" + third)));
  }

  lemma OperatorsBalanced(switched: string, guard: string, json: string, fallback: string)
    requires OperatorFree(switched + " ") && Balanced(guard) && OperatorFree(" " + json + " ") && OperatorFree(" " + fallback)
    ensures Balanced(Operators(switched, guard, json, fallback))
  {
    OperatorBalanced("&&");
    OperatorBalanced("||");
    FreeIsBalanced(switched + " ");
    FreeIsBalanced(" " + json + " ");
    FreeIsBalanced(" " + fallback);
    GroupTextFree(" ", guard, " ");
    var group := " " + ("(" + (guard + (")" + " ")));
    FreeIsBalanced(group);
    JoinBalanced("||", " " + fallback);
    var third := (" " + json + " ") + ("||" + (" " + fallback));
    JoinBalanced(" " + json + " ", "||" + (" " + fallback));
    JoinBalanced("&&", third);
    JoinBalanced(group, "&&" + third);
    JoinBalanced("&&", group + ("&&" + third));
    JoinBalanced(switched + " ", "&&" + (group + ("&&" + third)));
  }

  // Every accepted text whose operator characters stand in pairs has a reading.
  lemma AcceptedHasReading(expression: string, g: Gate) returns (e: Disjunction)
    requires Parse(expression, g).Some? && OperatorsPaired(Mask(InnerOf(expression), false))
    ensures WellFormed(e) && DisjunctionText(e) == InnerOf(expression)
  {
    var c := ClausesOf(g);
    ClausesProper(g);
    var guard := AcceptedShape(expression, c);
    Regrouped(c, guard);
    OperandsFree(c);
    SplitBalanced("", guard, Mask(guard, false), 0);
    OperatorsBalanced(c.switched, guard, JsonClause(c.labels), c.fallback);
    e := Reading(InnerOf(expression));
  }

  lemma GuardSpelled(c: Clauses)
    requires WellSpelled(c)
    ensures Spelled(GuardText(c))
  {
    SeparatorsSpelled();
    SpelledJoin(c.owner, " ");
    SpelledJoin(" ", c.workflow);
    SpelledJoin("&&", " " + c.workflow);
    SpelledJoin(")", " ");
    SpelledJoin(c.pullRequest, ")" + " ");
    SpelledJoin("(", c.pullRequest + (")" + " "));
    var group := " " + ("(" + (c.pullRequest + (")" + " ")));
    SpelledJoin(" ", "(" + (c.pullRequest + (")" + " ")));
    SpelledJoin(group, "&&" + (" " + c.workflow));
    SpelledJoin("&&", group + ("&&" + (" " + c.workflow)));
    SpelledJoin(c.owner + " ", "&&" + (group + ("&&" + (" " + c.workflow))));
  }

  lemma InnerSpelled(c: Clauses)
    requires WellSpelled(c) && '\'' !in c.labels
    ensures Spelled(Inner(c))
  {
    GuardSpelled(c);
    JsonSpelled(c.labels);
    OperatorsSpelled(c.switched, GuardText(c), JsonClause(c.labels), c.fallback);
    Regrouped(c, GuardText(c));
  }

  // ---- reading undoes rendering ----

  // What the label text must not contain, for the rendered selection to be read back.
  predicate Embeddable(labels: string) { '\'' !in labels && !Contains(labels, "}}") && !Contains(labels, "${{") }

  // The character at q does not follow `N(`, as a quote does after `fromJSON(`.
  predicate Apart(s: string, q: int)
    requires q < |s|
  {
    q >= 1 && (s[q - 1] != '(' || (q >= 2 && s[q - 2] != 'N'))
  }

  predicate QuotesApart(s: string) { forall q :: 0 <= q < |s| && s[q] == '\'' ==> Apart(s, q) }

  // Every brace is followed by something else.
  predicate BracesApart(s: string) {
    forall k :: 0 <= k < |s| && IsBrace(s[k]) ==> k + 1 < |s| && !IsBrace(s[k + 1])
  }

  predicate Tidy(c: Clauses) {
    && QuotesApart(c.switched) && QuotesApart(c.owner) && QuotesApart(c.pullRequest) && QuotesApart(c.workflow)
    && BracesApart(c.switched) && BracesApart(c.owner) && BracesApart(c.pullRequest) && BracesApart(c.workflow)
    && BracesApart(c.fallback) && forall k :: 0 <= k < |c.fallback| ==> !IsLineEnd(c.fallback[k])
  }

  lemma QuotesJoin(a: string, b: string)
    requires QuotesApart(a) && QuotesApart(b)
    ensures QuotesApart(a + b)
  {
    var s := a + b;
    forall q | 0 <= q < |s| && s[q] == '\''
      ensures Apart(s, q)
    {
      if q < |a| {
        assert a[q] == '\'' && Apart(a, q);
        assert s[q - 1] == a[q - 1] && (q >= 2 ==> s[q - 2] == a[q - 2]);
      } else {
        var j := q - |a|;
        assert b[j] == '\'' && Apart(b, j);
        assert s[q - 1] == b[j - 1] && (j >= 2 ==> s[q - 2] == b[j - 2]);
      }
    }
  }

  lemma BracesJoin(a: string, b: string)
    requires BracesApart(a) && BracesApart(b)
    ensures BracesApart(a + b)
  {
  }

  lemma Separators()
    ensures QuotesApart(" && (") && QuotesApart(" ") && QuotesApart("&&") && QuotesApart("(") && QuotesApart(")")
    ensures BracesApart(" && (") && BracesApart(" ") && BracesApart("&&") && BracesApart("(") && BracesApart(")")
    ensures BracesApart(TAIL_HEAD) && BracesApart(TAIL_MIDDLE)
  {
  }

  lemma HeadQuotes(c: Clauses)
    requires Tidy(c)
    ensures QuotesApart(Prefix(c) + GuardText(c))
  {
    Separators();
    QuotesJoin(c.switched, " && (");
    QuotesJoin(c.owner, " ");
    QuotesJoin(")", " ");
    QuotesJoin(c.pullRequest, ")" + " ");
    QuotesJoin("(", c.pullRequest + (")" + " "));
    QuotesJoin(" ", "(" + (c.pullRequest + (")" + " ")));
    QuotesJoin(" ", c.workflow);
    QuotesJoin("&&", " " + c.workflow);
    var group := " " + ("(" + (c.pullRequest + (")" + " ")));
    QuotesJoin(group, "&&" + (" " + c.workflow));
    QuotesJoin("&&", group + ("&&" + (" " + c.workflow)));
    QuotesJoin(c.owner + " ", "&&" + (group + ("&&" + (" " + c.workflow))));
    QuotesJoin(Prefix(c), GuardText(c));
  }

  lemma HeadBraces(c: Clauses)
    requires Tidy(c)
    ensures BracesApart(Prefix(c) + GuardText(c))
  {
    Separators();
    BracesJoin(c.switched, " && (");
    BracesJoin(c.owner, " ");
    BracesJoin(")", " ");
    BracesJoin(c.pullRequest, ")" + " ");
    BracesJoin("(", c.pullRequest + (")" + " "));
    BracesJoin(" ", "(" + (c.pullRequest + (")" + " ")));
    BracesJoin(" ", c.workflow);
    BracesJoin("&&", " " + c.workflow);
    var group := " " + ("(" + (c.pullRequest + (")" + " ")));
    BracesJoin(group, "&&" + (" " + c.workflow));
    BracesJoin("&&", group + ("&&" + (" " + c.workflow)));
    BracesJoin(c.owner + " ", "&&" + (group + ("&&" + (" " + c.workflow))));
    BracesJoin(Prefix(c), GuardText(c));
  }

  lemma PaddedClause(before: string, clause: string, after: string)
    requires OperatorFree(clause) && Solid(clause) && AllSpace(before) && AllSpace(after)
    ensures OperatorFree(before + clause + after) && Trim(before + clause + after) == clause
  {
    SpaceFree(before);
    SpaceFree(after);
    JoinFree(before, clause);
    JoinFree(before + clause, after);
    TrimPadded(before, clause, after);
  }

  // The rendered guard splits into the owner clause, the pull-request group and the workflow clause.
  lemma GuardSplits(c: Clauses)
    requires Proper(c)
    ensures var conjuncts := TopLevelConjuncts(GuardText(c));
            conjuncts.Some? && |conjuncts.value| == 3 && conjuncts.value[0] == c.owner && conjuncts.value[2] == c.workflow
  {
    SpaceAfter(c.owner);
    SpaceBefore(c.workflow);
    GroupTextFree(" ", c.pullRequest, " ");
    SplitThree(c.owner + " ", " " + ("(" + (c.pullRequest + (")" + " "))), " " + c.workflow);
  }

  lemma SpaceAfter(clause: string)
    requires OperatorFree(clause) && Solid(clause)
    ensures OperatorFree(clause + " ") && Trim(clause + " ") == clause
  {
    PaddedClause("", clause, " ");
    assert "" + clause + " " == clause + " ";
  }

  lemma SpaceBefore(clause: string)
    requires OperatorFree(clause) && Solid(clause)
    ensures OperatorFree(" " + clause) && Trim(" " + clause) == clause
  {
    PaddedClause(" ", clause, "");
    assert " " + clause + "" == " " + clause;
  }

  lemma SplitThree(a: string, b: string, c: string)
    requires OperatorFree(a) && OperatorFree(b) && OperatorFree(c)
    ensures TopLevelConjuncts(a + ("&&" + (b + ("&&" + c)))) == Some([Trim(a), Trim(b), Trim(c)])
  {
    SplitOnly(c);
    SplitFirst(b, c);
    SplitFirst(a, b + ("&&" + c));
    assert [Trim(a)] + ([Trim(b)] + [Trim(c)]) == [Trim(a), Trim(b), Trim(c)];
  }

  lemma {:induction false} QuoteAtEnd(labels: string, rest: string)
    requires '\'' !in labels
    ensures QuoteAt(labels + (['\''] + rest)) == |labels|
  {
    if labels == "" {
      assert labels + (['\''] + rest) == ['\''] + rest;
    } else {
      assert (labels + (['\''] + rest))[1..] == labels[1..] + (['\''] + rest);
      QuoteAtEnd(labels[1..], rest);
    }
  }

  // The tail is found where it was written.
  lemma TailHere(s: string, head: string, labels: string, fallback: string)
    requires s == head + (TAIL_HEAD + (labels + (TAIL_MIDDLE + fallback))) && '\'' !in labels
    requires fallback != "" && forall k :: 0 <= k < |fallback| ==> !IsLineEnd(fallback[k])
    ensures TailAt(s, |head|) == Some(Tail(|head|, labels, fallback))
  {
    var ending := TAIL_MIDDLE + fallback;
    var after := labels + ending;
    assert s[|head|..] == TAIL_HEAD + after;
    assert (TAIL_HEAD + after)[|TAIL_HEAD|..] == after;
    assert TAIL_MIDDLE == ['\''] + TAIL_MIDDLE[1..];
    assert ending == ['\''] + (TAIL_MIDDLE[1..] + fallback);
    QuoteAtEnd(labels, TAIL_MIDDLE[1..] + fallback);
    assert after[|labels|..] == ending && after[..|labels|] == labels;
    assert ending[|TAIL_MIDDLE|..] == fallback;
  }

  lemma HeadChars()
    ensures |TAIL_HEAD| == 15 && TAIL_HEAD[14] == '\'' && TAIL_HEAD[13] == '(' && TAIL_HEAD[12] == 'N'
    ensures forall k :: 0 <= k < 14 ==> TAIL_HEAD[k] != '\''
  {
  }

  lemma PrefixAt(p: string, s: string, i: nat)
    requires i <= |s|
    ensures p <= s[i..] ==> i + |p| <= |s| && forall k :: 0 <= k < |p| ==> s[i + k] == p[k]
  {
    if p <= s[i..] {
      assert forall k :: 0 <= k < |p| ==> s[i..][k] == s[i + k];
    }
  }

  // And nowhere before: a match needs a quote after `N(`.
  lemma NoTailBefore(s: string, head: string, rest: string, i: nat)
    requires s == head + (TAIL_HEAD + rest) && QuotesApart(head) && i < |head|
    ensures TailAt(s, i).None?
  {
    HeadChars();
    PrefixAt(TAIL_HEAD, s, i);
    assert forall k :: 0 <= k < |head| ==> s[k] == head[k];
    assert forall k :: 0 <= k < 15 ==> s[|head| + k] == TAIL_HEAD[k];
    var q := i + 14;
    assert q >= |head| ==> s[q] == TAIL_HEAD[q - |head|];
    assert q < |head| && s[q] == '\'' ==> Apart(head, q);
    assert q < |s| ==> !(s[i + 14] == TAIL_HEAD[14] && s[i + 13] == TAIL_HEAD[13] && s[i + 12] == TAIL_HEAD[12]);
  }

  lemma {:induction false} FindTailAt(s: string, from: nat, index: nat)
    requires from <= index <= |s| && TailAt(s, index).Some?
    requires forall i: nat :: from <= i < index ==> TailAt(s, i).None?
    ensures FindTail(s, from) == TailAt(s, index)
    decreases index - from
  {
    if from < index {
      assert TailAt(s, from).None?;
      FindTailAt(s, from + 1, index);
    }
  }

  // ---- delimiters do not occur inside ----

  lemma PrefixFrom(p: string, s: string, i: nat)
    requires i + |p| <= |s| && forall k :: 0 <= k < |p| ==> s[i + k] == p[k]
    ensures Contains(s, p)
  {
    assert p == s[i..][..|p|];
    assert p <= s[i..];
  }

  // Two braces in a row, in a text around `labels` whose own braces stand apart, are braces of `labels`.
  lemma DoubleInside(before: string, labels: string, after: string, i: nat)
    requires BracesApart(before) && BracesApart(after) && after != "" && !IsBrace(after[0])
    requires i + 1 < |before| + |labels| + |after|
    requires var s := before + (labels + after); IsBrace(s[i]) && IsBrace(s[i + 1])
    ensures |before| <= i && i + 1 < |before| + |labels|
  {
    var s := before + (labels + after);
    assert forall k :: 0 <= k < |before| ==> s[k] == before[k];
    assert forall k :: |before| + |labels| <= k < |s| ==> s[k] == after[k - |before| - |labels|];
  }

  lemma ClosersInside(before: string, labels: string, after: string)
    requires BracesApart(before) && BracesApart(after) && after != "" && !IsBrace(after[0])
    requires Contains(before + (labels + after), "}}")
    ensures Contains(labels, "}}")
  {
    var s := before + (labels + after);
    var i :| 0 <= i <= |s| && "}}" <= s[i..];
    PrefixAt("}}", s, i);
    assert s[i + 0] == '}' && s[i + 1] == '}';
    DoubleInside(before, labels, after, i);
    assert forall k :: 0 <= k < |labels| ==> s[|before| + k] == labels[k];
    PrefixFrom("}}", labels, i - |before|);
  }

  lemma OpenersInside(before: string, labels: string, after: string)
    requires BracesApart(before) && BracesApart(after) && after != "" && !IsBrace(after[0])
    requires before != "" && before[|before| - 1] != '$'
    requires Contains(before + (labels + after), "${{")
    ensures Contains(labels, "${{")
  {
    var s := before + (labels + after);
    var i :| 0 <= i <= |s| && "${{" <= s[i..];
    PrefixAt("${{", s, i);
    assert s[i + 0] == '$' && s[i + 1] == '{' && s[i + 2] == '{';
    DoubleInside(before, labels, after, i + 1);
    assert forall k :: 0 <= k < |labels| ==> s[|before| + k] == labels[k];
    assert forall k :: 0 <= k < |before| ==> s[k] == before[k];
    PrefixFrom("${{", labels, i - |before|);
  }

  lemma ContainsAround(before: string, labels: string, after: string, part: string)
    requires Contains(labels, part)
    ensures Contains(before + (labels + after), part)
  {
    var s := before + (labels + after);
    var i :| 0 <= i <= |labels| && part <= labels[i..];
    PrefixAt(part, labels, i);
    assert forall k :: 0 <= k < |labels| ==> s[|before| + k] == labels[k];
    PrefixFrom(part, s, |before| + i);
  }

  // ---- the round trip ----

  lemma DelimitersInside(c: Clauses)
    requires Tidy(c)
    ensures Contains(Inner(c), "}}") <==> Contains(c.labels, "}}")
    ensures Contains(Inner(c), "${{") <==> Contains(c.labels, "${{")
  {
    var head, after := Prefix(c) + GuardText(c), TAIL_MIDDLE + c.fallback;
    var before := head + TAIL_HEAD;
    HeadBraces(c);
    HeadChars();
    Separators();
    BracesJoin(head, TAIL_HEAD);
    BracesJoin(TAIL_MIDDLE, c.fallback);
    InnerAround(c);
    if Contains(Inner(c), "}}") {
      ClosersInside(before, c.labels, after);
    }
    if Contains(c.labels, "}}") {
      ContainsAround(before, c.labels, after, "}}");
    }
    if Contains(Inner(c), "${{") {
      OpenersInside(before, c.labels, after);
    }
    if Contains(c.labels, "${{") {
      ContainsAround(before, c.labels, after, "${{");
    }
  }

  lemma InnerAround(c: Clauses)
    ensures var head := Prefix(c) + GuardText(c);
            && Inner(c) == head + (TAIL_HEAD + (c.labels + (TAIL_MIDDLE + c.fallback)))
            && Inner(c) == (head + TAIL_HEAD) + (c.labels + (TAIL_MIDDLE + c.fallback))
  {
    var tail := c.labels + (TAIL_MIDDLE + c.fallback);
    assert Prefix(c) + (GuardText(c) + (TAIL_HEAD + tail)) == Prefix(c) + GuardText(c) + (TAIL_HEAD + tail);
    assert Prefix(c) + GuardText(c) + (TAIL_HEAD + tail) == (Prefix(c) + GuardText(c) + TAIL_HEAD) + tail;
  }

  lemma DelimitedInner(inner: string)
    ensures "${{ " <= Delimited(inner) && EndsWith(Delimited(inner), " }}") && InnerOf(Delimited(inner)) == inner
  {
  }

  lemma TailFound(c: Clauses)
    requires Tidy(c) && '\'' !in c.labels && c.fallback != ""
    ensures var head := Prefix(c) + GuardText(c);
            FindTail(Inner(c), 0) == Some(Tail(|head|, c.labels, c.fallback))
            && GuardOf(Inner(c), Prefix(c), |head|) == GuardText(c) && Prefix(c) <= Inner(c)
  {
    var inner, head := Inner(c), Prefix(c) + GuardText(c);
    InnerAround(c);
    HeadQuotes(c);
    TailHere(inner, head, c.labels, c.fallback);
    forall i: nat | 0 <= i < |head| ensures TailAt(inner, i).None? {
      NoTailBefore(inner, head, c.labels + (TAIL_MIDDLE + c.fallback), i);
    }
    FindTailAt(inner, 0, |head|);
    assert inner[..|head|] == head;
    assert inner[|Prefix(c)|..|head|] == head[|Prefix(c)|..] == GuardText(c);
  }

  lemma RenderedAccepted(c: Clauses)
    requires Proper(c) && Tidy(c)
    ensures Accepts(Delimited(Inner(c)), c) <==> Embeddable(c.labels)
  {
    var inner := Inner(c);
    DelimitedInner(inner);
    DelimitersInside(c);
    if Accepts(Delimited(inner), c) {
      var guard := AcceptedShape(Delimited(inner), c);
    }
    if Embeddable(c.labels) {
      TailFound(c);
      GuardSplits(c);
      var conjuncts := TopLevelConjuncts(GuardText(c)).value;
      assert conjuncts[0] in conjuncts && conjuncts[2] in conjuncts;
    }
  }

  // ---- the texts of a gate are tidy ----

  lemma BareTidy(s: string)
    requires Bare(s)
    ensures QuotesApart(s) && BracesApart(s)
  {
  }

  lemma ComparedTidy(head: string, body: string)
    requires Bare(head) && Bare(body) && head != "" && body != ""
    ensures QuotesApart(head + Quoted(body)) && BracesApart(head + Quoted(body))
  {
    var s := head + Quoted(body);
    assert forall k :: 0 <= k < |head| ==> s[k] == head[k];
    assert forall k :: 0 <= k < |body| ==> s[|head| + 1 + k] == body[k];
    assert s[|head|] == '\'' && s[|s| - 1] == '\'' && s[|s| - 2] == body[|body| - 1] && s[|head| - 1] == head[|head| - 1];
  }

  lemma SwitchTidy(g: Gate)
    requires ValidGate(g)
    ensures QuotesApart(SwitchClause(g)) && BracesApart(SwitchClause(g))
  {
    BareWords();
    IdBare(g.enrollmentId);
    BareJoin("CIRUJANO_RUNNER_", g.enrollmentId);
    BareJoin("vars.", SwitchFor(g.enrollmentId));
    BareJoin("vars." + SwitchFor(g.enrollmentId), " == ");
    ComparedTidy("vars." + SwitchFor(g.enrollmentId) + " == ", "on");
  }

  lemma OwnerTidy(g: Gate)
    requires ValidGate(g)
    ensures QuotesApart(OwnerClause(g)) && BracesApart(OwnerClause(g))
  {
    BareWords();
    ComparedTidy("github.actor_id == ", Decimal(g.ownerUserId));
  }

  lemma EitherTidy(left: string, first: string, second: string)
    requires QuotesApart(left) && BracesApart(left) && Bare(first) && Bare(second)
    ensures var s := left + (" || " + ("(" + (first + (" && " + second) + ")"))); QuotesApart(s) && BracesApart(s)
  {
    BareTidy(first);
    BareTidy(second);
    Separators();
    assert QuotesApart(" && ") && QuotesApart(" || ") && BracesApart(" && ") && BracesApart(" || ");
    QuotesJoin(" && ", second);
    BracesJoin(" && ", second);
    QuotesJoin(first, " && " + second);
    BracesJoin(first, " && " + second);
    var both := first + (" && " + second);
    QuotesJoin(both, ")");
    BracesJoin(both, ")");
    QuotesJoin("(", both + ")");
    BracesJoin("(", both + ")");
    QuotesJoin(" || ", "(" + (both + ")"));
    BracesJoin(" || ", "(" + (both + ")"));
    QuotesJoin(left, " || " + ("(" + (both + ")")));
    BracesJoin(left, " || " + ("(" + (both + ")")));
  }

  lemma PullRequestTidy(g: Gate)
    requires ValidGate(g)
    ensures QuotesApart(PullRequestText(g)) && BracesApart(PullRequestText(g))
  {
    BareEvent();
    BareUser();
    BareHeadRepository();
    BareRepository();
    ComparedTidy("github.event_name != ", "pull_request");
    BareJoin("github.event.pull_request.user.id == ", Decimal(g.ownerUserId));
    BareJoin("github.event.pull_request.head.repo.id", " == github.event.repository.id");
    EitherTidy("github.event_name != " + Quoted("pull_request"),
               "github.event.pull_request.user.id == " + Decimal(g.ownerUserId),
               "github.event.pull_request.head.repo.id" + " == github.event.repository.id");
  }

  // `format(` is the one call whose quote follows a parenthesis, and its name does not end in N.
  lemma CallTidy(head: string, path: string, rest: string)
    requires Bare(head) && head != "" && head[|head| - 1] != 'N' && NeedsNoEscape(path) && Bare(rest)
    ensures var s := head + ("(" + (Quoted(path + "@{0}") + rest + ")")); QuotesApart(s) && BracesApart(s)
  {
    var s := head + ("(" + (Quoted(path + "@{0}") + rest + ")"));
    var at := |head| + 2 + |path|;
    assert forall k :: 0 <= k < |head| ==> s[k] == head[k];
    assert s[|head|] == '(' && s[|head| + 1] == '\'';
    assert forall k :: 0 <= k < |path| ==> s[|head| + 2 + k] == path[k];
    assert s[at] == '@' && s[at + 1] == '{' && s[at + 2] == '0' && s[at + 3] == '}' && s[at + 4] == '\'';
    assert forall k :: 0 <= k < |rest| ==> s[at + 5 + k] == rest[k];
    assert |s| == at + 6 + |rest| && s[|s| - 1] == ')';
    assert forall k :: |head| + 2 <= k < at ==> s[k] == path[k - |head| - 2];
    assert forall k :: at + 5 <= k < |s| - 1 ==> s[k] == rest[k - at - 5];
  }

  lemma WorkflowTidy(g: Gate)
    requires ValidGate(g)
    ensures QuotesApart(WorkflowRefClause(g)) && BracesApart(WorkflowRefClause(g))
  {
    BarePaths();
    CallTidy("github.workflow_ref == format", g.repository + "/" + g.workflowPath, ", github.ref");
  }

  lemma FallbackTidy()
    ensures BracesApart(Quoted("ubuntu-latest")) && forall k :: 0 <= k < |Quoted("ubuntu-latest")| ==> !IsLineEnd(Quoted("ubuntu-latest")[k])
  {
    FallbackPlain();
    OneLine("ubuntu-latest");
  }

  lemma FallbackPlain()
    ensures IsWord("ubuntu-latest")
  {
  }

  lemma OneLine(word: string)
    requires IsWord(word)
    ensures BracesApart(Quoted(word)) && forall k :: 0 <= k < |Quoted(word)| ==> !IsLineEnd(Quoted(word)[k])
  {
    assert forall k :: 0 < k < |word| + 1 ==> Quoted(word)[k] == word[k - 1];
  }

  lemma ClausesTidy(g: Gate)
    requires ValidGate(g)
    ensures Tidy(ClausesOf(g))
  {
    SwitchTidy(g);
    OwnerTidy(g);
    PullRequestTidy(g);
    WorkflowTidy(g);
    FallbackTidy();
  }

  // ---- the labels of a gate can stand inside exactly when its runner label can ----

  lemma HarmlessTidy(s: string)
    requires Harmless(s)
    ensures BracesApart(s) && '\'' !in s
  {
  }

  lemma TextEmbeddable(runnerLabel: string)
    ensures Embeddable(JsonText(runnerLabel)) <==> Embeddable(runnerLabel)
  {
    QuoteKept(runnerLabel);
    VerbatimPart(runnerLabel, "}}");
    VerbatimPart(runnerLabel, "${{");
  }

  lemma EmbeddableLabels(runnerLabel: string)
    ensures Embeddable(JsonList(RequiredLabels(runnerLabel))) <==> Embeddable(runnerLabel)
  {
    LabelsText(runnerLabel);
    TextEmbeddable(runnerLabel);
    LabelsHarmless();
    HarmlessTidy(LABELS_HEAD);
    HarmlessTidy(LABELS_TAIL);
    PartsAround(LABELS_HEAD, JsonText(runnerLabel), LABELS_TAIL);
  }

  lemma PartsAround(head: string, text: string, tail: string)
    requires '\'' !in head && '\'' !in tail && BracesApart(head) && BracesApart(tail)
    requires head != "" && head[|head| - 1] == '"' && tail != "" && tail[0] == '"'
    ensures Embeddable(head + (text + tail)) <==> Embeddable(text)
  {
    var whole := head + (text + tail);
    assert '\'' in whole <==> '\'' in text;
    if Contains(whole, "}}") {
      ClosersInside(head, text, tail);
    }
    if Contains(whole, "${{") {
      OpenersInside(head, text, tail);
    }
    if Contains(text, "}}") {
      ContainsAround(head, text, tail, "}}");
    }
    if Contains(text, "${{") {
      ContainsAround(head, text, tail, "${{");
    }
  }

  // A rendered selection is read back exactly when its runner label can stand inside the expression.
  lemma RenderReadsBack(g: Gate)
    requires ValidGate(g)
    ensures Parse(Render(g).value, g) == if Embeddable(g.runnerLabel) then Some(SelectionOf(g)) else None
  {
    ClausesProper(g);
    ClausesTidy(g);
    EmbeddableLabels(g.runnerLabel);
    RenderedAccepted(ClausesOf(g));
  }

  // The gate of an enrollment carries the label its enrollment was accepted with.
  ghost predicate EnrolledGate(g: Gate) { ValidGate(g) && exists sku :: EnrolledLabel(g.enrollmentId, sku, g.runnerLabel) }

  lemma EnrolledEmbeddable(g: Gate)
    requires EnrolledGate(g)
    ensures Embeddable(g.runnerLabel)
  {
    var sku :| EnrolledLabel(g.enrollmentId, sku, g.runnerLabel);
    EnrolledHarmless(g.enrollmentId, sku, g.runnerLabel);
    HarmlessEmbeddable(g.runnerLabel);
  }

  lemma HarmlessEmbeddable(s: string)
    requires Harmless(s)
    ensures Embeddable(s)
  {
    forall i | 0 <= i <= |s| ensures !("}}" <= s[i..]) && !("${{" <= s[i..]) {
      assert i < |s| ==> s[i..][0] == s[i];
    }
  }

  // Whether a gate's rendered text is read back, plain and from a single-quoted or double-quoted YAML scalar.
  predicate ReadsBack(g: Gate)
    requires ValidGate(g)
  {
    var text := Render(g).value;
    var single, double := YamlScalar("" + (['\''] + Double(text) + ['\'']) + ""), YamlScalar("" + (['"'] + Escape(text) + ['"']) + "");
    && Parse(text, g) == Some(SelectionOf(g))
    && single.Some? && Parse(single.value, g) == Some(SelectionOf(g))
    && double.Some? && Parse(double.value, g) == Some(SelectionOf(g))
  }

  lemma RenderReadsBackFromYaml(g: Gate)
    requires ValidGate(g)
    ensures ReadsBack(g) <==> Embeddable(g.runnerLabel)
  {
    RenderReadsBack(g);
    var text := Render(g).value;
    SingleQuotedExactly("", Double(text), "", text);
    DoubleQuotedExactly("", Escape(text), "", text);
  }

  // Whatever an enrollment renders is read back.
  lemma EnrolledReadsBack(g: Gate)
    requires EnrolledGate(g)
    ensures Render(g).Some? && ReadsBack(g)
  {
    EnrolledEmbeddable(g);
    RenderReadsBackFromYaml(g);
  }

  // What an enrollment renders has a reading, and every reading of it selects the labels only under the guard.
  lemma EnrolledHasReading(g: Gate, env: string -> Value) returns (e: Disjunction)
    requires EnrolledGate(g)
    ensures WellFormed(e) && Render(g) == Some(Delimited(DisjunctionText(e)))
    ensures var c := ClausesOf(g);
            || DisjunctionValue(e, env) == env(c.fallback)
            || (&& DisjunctionValue(e, env) == env(JsonClause(LabelsJson(g)))
                && env(c.switched).truthy && env(c.owner).truthy && env(c.workflow).truthy)
  {
    var c, text := ClausesOf(g), Render(g).value;
    EnrolledEmbeddable(g);
    EmbeddableLabels(g.runnerLabel);
    RenderReadsBack(g);
    ClausesSpelled(g);
    InnerSpelled(c);
    DelimitedInner(Inner(c));
    e := AcceptedHasReading(text, g);
    SelectsOnlyUnderGuard(text, g, e, env);
  }
}
