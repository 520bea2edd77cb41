/**
 What a rendered selection means to GitHub (packages/cli/src/fleet-routing.ts, renderGatedRunsOn): with clauses read as
 comparisons of the run's properties, it yields the self-hosted labels exactly for an owner's run of the enrolled
 workflow while the switch is on, and `ubuntu-latest` for every other.
 */
module GateMeaning {
  import opened Text
  import opened Guards
  import opened Labels
  import opened GatedRunsOn

  // ---- clauses as GitHub evaluates them ----

  // A property of the run by its path, and GitHub's comparison of strings.
  datatype Context = Context(property: string -> string, same: (string, string) -> bool)

  predicate PathChar(c: char) { 'a' <= c <= 'z' || 'A' <= c <= 'Z' || IsDigit(c) || c == '_' || c == '.' }

  predicate IsPath(s: string) { s != "" && !IsDigit(s[0]) && forall k :: 0 <= k < |s| ==> PathChar(s[k]) }

  function SpaceAt(s: string): nat { if s == "" || s[0] == ' ' then 0 else SpaceAt(s[1..]) + 1 }

  // The template with the value in the place of `{0}`.
  function Substituted(template: string, value: string): string {
    if template == "" then "" else if "{0}" <= template then value + template[3..] else [template[0]] + Substituted(template[1..], value)
  }

  // A literal, a number, a format() call with one argument, or a property.
  function OperandText(s: string, ctx: Context): string {
    if |s| >= 2 && s[0] == '\'' then s[1..|s| - 1]
    else if s != "" && IsDigit(s[0]) then s
    else if "format(" <= s && |s| >= 10 then
      var inside := s[7..|s| - 1];
      var n := QuoteAt(inside[1..]);
      if n + 4 <= |inside| then Substituted(inside[1..n + 1], ctx.property(inside[n + 4..])) else ""
    else ctx.property(s)
  }

  predicate Compares(s: string, op: string) { var n := SpaceAt(s); n <= |s| && op <= s[n..] }

  // A comparison is true or false; a literal is itself; fromJSON('…') is what its text says.
  function Evaluated(s: string, ctx: Context): Value {
    var n := SpaceAt(s);
    if "fromJSON(" <= s && |s| >= 12 then Value(true, s[10..|s| - 2])
    else if Compares(s, " == ") then Value(ctx.same(ctx.property(s[..n]), OperandText(s[n..][4..], ctx)), "")
    else if Compares(s, " != ") then Value(!ctx.same(ctx.property(s[..n]), OperandText(s[n..][4..], ctx)), "")
    else if |s| >= 2 && s[0] == '\'' then Value(s != "''", s[1..|s| - 1])
    else Value(ctx.property(s) != "", ctx.property(s))
  }

  // The run's properties decide every clause.
  ghost predicate ReadBy(env: string -> Value, ctx: Context) {
    forall t: string {:trigger Evaluated(t, ctx)} :: env(t) == Evaluated(t, ctx)
  }

  // ---- reading the clauses ----

  lemma {:induction false} SpaceAfterPath(path: string, rest: string)
    requires forall k :: 0 <= k < |path| ==> path[k] != ' '
    ensures SpaceAt(path + (" " + rest)) == |path|
  {
    if path == "" {
      assert path + (" " + rest) == " " + rest;
    } else {
      assert (path + (" " + rest))[1..] == path[1..] + (" " + rest);
      SpaceAfterPath(path[1..], rest);
    }
  }

  lemma ComparisonRead(path: string, rest: string, op: string)
    requires IsPath(path) && (op == " == " || op == " != ")
    ensures var s := path + (op + rest); SpaceAt(s) == |path| && s[..|path|] == path && s[|path|..] == op + rest && (op + rest)[4..] == rest
  {
    assert op + rest == " " + (op[1..] + rest);
    SpaceAfterPath(path, op[1..] + rest);
  }

  lemma NotFromJson(path: string, rest: string)
    requires IsPath(path) && rest != "" && rest[0] == ' '
    ensures !("fromJSON(" <= path + rest)
  {
    var s := path + rest;
    assert "fromJSON("[8] == '(' && forall k :: 0 <= k < 9 ==> "fromJSON("[k] != ' ';
    assert s[|path|] == ' ';
    assert forall k :: 0 <= k < |path| ==> s[k] == path[k] && PathChar(s[k]);
  }

  lemma EqualRead(path: string, rest: string, ctx: Context)
    requires IsPath(path)
    ensures Evaluated(path + (" == " + rest), ctx).truthy <==> ctx.same(ctx.property(path), OperandText(rest, ctx))
  {
    ComparisonRead(path, rest, " == ");
    NotFromJson(path, " == " + rest);
  }

  lemma UnequalRead(path: string, rest: string, ctx: Context)
    requires IsPath(path)
    ensures Evaluated(path + (" != " + rest), ctx).truthy <==> !ctx.same(ctx.property(path), OperandText(rest, ctx))
  {
    ComparisonRead(path, rest, " != ");
    NotFromJson(path, " != " + rest);
    assert (" != " + rest)[1] == '!';
  }

  lemma LiteralOperand(b: string, ctx: Context)
    ensures OperandText(Quoted(b), ctx) == b
  {
    assert Quoted(b)[1..|Quoted(b)| - 1] == b;
  }

  // The number a row of digits stands for.
  function NumberIn(s: string): int {
    if s == "" then 0 else 10 * NumberIn(s[..|s| - 1]) + (s[|s| - 1] as int - '0' as int)
  }

  lemma {:induction false} DecimalStandsFor(n: nat)
    ensures NumberIn(Decimal(n)) == n
  {
    var s := Decimal(n);
    if n < 10 {
      assert s == ['0' + n as char] && s[..0] == "";
      assert NumberIn(s[..0]) == 0;
    } else {
      DecimalStandsFor(n / 10);
      assert s == Decimal(n / 10) + ['0' + (n % 10) as char];
      assert s[..|s| - 1] == Decimal(n / 10);
    }
  }

  lemma NumberOperand(n: nat, ctx: Context)
    ensures OperandText(Decimal(n), ctx) == Decimal(n)
  {
    assert IsDigit(Decimal(n)[0]);
  }

  lemma PathOperand(path: string, ctx: Context)
    requires IsPath(path) && !("format(" <= path)
    ensures OperandText(path, ctx) == ctx.property(path)
  {
    assert PathChar(path[0]);
  }

  lemma {:induction false} SubstitutedAt(before: string, value: string)
    requires '{' !in before
    ensures Substituted(before + "{0}", value) == before + value
  {
    if before == "" {
      assert before + "{0}" == "{0}" && "{0}"[3..] == "";
    } else {
      assert before == [before[0]] + before[1..];
      assert (before + "{0}")[1..] == before[1..] + "{0}" && (before + "{0}")[0] == before[0];
      SubstitutedAt(before[1..], value);
    }
  }

  lemma FormatOperand(before: string, path: string, ctx: Context)
    requires '{' !in before && '\'' !in before
    ensures OperandText("format" + ("(" + (Quoted(before + "{0}") + ", " + path + ")")), ctx) == before + ctx.property(path)
  {
    var template := before + "{0}";
    var inside := Quoted(template) + ", " + path;
    var s := "format" + ("(" + (inside + ")"));
    FormatPrefix(inside + ")");
    assert s[7..] == inside + ")" && s[7..|s| - 1] == inside;
    var tail := ", " + path;
    QuotedThen(template, ", ", path);
    assert '\'' !in template;
    QuoteAtEnd(template, tail);
    assert inside[1..|template| + 1] == template && inside[|template| + 4..] == path;
    SubstitutedAt(before, ctx.property(path));
  }

  lemma QuotedThen(template: string, comma: string, path: string)
    ensures var inside := Quoted(template) + comma + path;
            inside == ['\''] + (template + (['\''] + (comma + path))) && inside[1..] == template + (['\''] + (comma + path))
  {
    var rest := template + (['\''] + (comma + path));
    assert Quoted(template) + comma + path == ['\''] + rest;
    assert (['\''] + rest)[1..] == rest;
  }

  lemma FormatPrefix(rest: string)
    ensures var s := "format" + ("(" + rest); "format(" <= s && s[7..] == rest && s[0] == 'f'
  {
    assert "format" + "(" == "format(";
    assert "format" + ("(" + rest) == "format(" + rest;
  }

  // ---- the properties a selection asks for ----

  lemma NamesArePaths()
    ensures IsPath("github.actor_id") && IsPath("github.event_name") && IsPath("github.workflow_ref") && IsPath("github.ref")
    ensures !("format(" <= "github.ref")
  {
  }

  lemma UserIsPath()
    ensures IsPath("github.event.pull_request.user.id")
  {
  }

  lemma HeadIsPath()
    ensures IsPath("github.event.pull_request.head.repo.id")
  {
  }

  lemma RepositoryIsPath()
    ensures IsPath("github.event.repository.id") && !("format(" <= "github.event.repository.id")
  {
  }

  lemma SwitchIsPath(id: string)
    requires ValidId(id)
    ensures IsPath("vars." + SwitchFor(id))
  {
    assert forall k :: 1 <= k < |id| ==> IsDigit(id[1..][k - 1]) && id[k] == id[1..][k - 1];
    SwitchHead();
    var head := "vars." + "CIRUJANO_RUNNER_";
    assert "vars." + SwitchFor(id) == head + id;
    assert forall k :: 0 <= k < |id| ==> PathChar(id[k]);
  }

  lemma SwitchHead()
    ensures IsPath("vars." + "CIRUJANO_RUNNER_")
  {
  }

  // ---- each clause ----

  predicate SwitchedOn(g: Gate, ctx: Context) { ctx.same(ctx.property("vars." + ("CIRUJANO_RUNNER_" + g.enrollmentId)), "on") }

  predicate ByOwner(g: Gate, ctx: Context)
    requires ValidGate(g)
  {
    ctx.same(ctx.property("github.actor_id"), Decimal(g.ownerUserId))
  }

  // No pull request, or one of the owner's out of the repository itself.
  predicate OwnPullRequest(g: Gate, ctx: Context)
    requires ValidGate(g)
  {
    || !ctx.same(ctx.property("github.event_name"), "pull_request")
    || (&& ctx.same(ctx.property("github.event.pull_request.user.id"), Decimal(g.ownerUserId))
        && ctx.same(ctx.property("github.event.pull_request.head.repo.id"), ctx.property("github.event.repository.id")))
  }

  predicate EnrolledWorkflow(g: Gate, ctx: Context) {
    ctx.same(ctx.property("github.workflow_ref"), g.repository + "/" + g.workflowPath + "@" + ctx.property("github.ref"))
  }

  lemma SwitchMeans(g: Gate, ctx: Context)
    requires ValidGate(g)
    ensures Evaluated(SwitchClause(g), ctx).truthy <==> SwitchedOn(g, ctx)
  {
    var path := "vars." + SwitchFor(g.enrollmentId);
    SwitchIsPath(g.enrollmentId);
    EqualRead(path, Quoted("on"), ctx);
    LiteralOperand("on", ctx);
    assert SwitchClause(g) == path + (" == " + Quoted("on"));
  }

  lemma ActorSpelt(rest: string)
    ensures "github.actor_id == " + rest == "github.actor_id" + (" == " + rest)
  {
    assert "github.actor_id == " == "github.actor_id" + " == ";
  }

  lemma OwnerMeans(g: Gate, ctx: Context)
    requires ValidGate(g)
    ensures Evaluated(OwnerClause(g), ctx).truthy <==> ByOwner(g, ctx)
  {
    NamesArePaths();
    EqualRead("github.actor_id", Quoted(Decimal(g.ownerUserId)), ctx);
    LiteralOperand(Decimal(g.ownerUserId), ctx);
    ActorSpelt(Quoted(Decimal(g.ownerUserId)));
    assert OwnerClause(g) == "github.actor_id" + (" == " + Quoted(Decimal(g.ownerUserId)));
  }

  lemma WorkflowMeans(g: Gate, ctx: Context)
    requires ValidGate(g)
    ensures Evaluated(WorkflowRefClause(g), ctx).truthy <==> EnrolledWorkflow(g, ctx)
  {
    NamesArePaths();
    var before := g.repository + "/" + g.workflowPath + "@";
    var call := "format" + ("(" + (Quoted(before + "{0}") + ", " + "github.ref" + ")"));
    FormatOperand(before, "github.ref", ctx);
    EqualRead("github.workflow_ref", call, ctx);
    WorkflowSpelt(g, before, call);
  }

  lemma WorkflowSpelt(g: Gate, before: string, call: string)
    requires before == g.repository + "/" + g.workflowPath + "@"
    requires call == "format" + ("(" + (Quoted(before + "{0}") + ", " + "github.ref" + ")"))
    ensures WorkflowRefClause(g) == "github.workflow_ref" + (" == " + call)
  {
    assert "github.workflow_ref == format" == "github.workflow_ref" + (" == " + "format");
    assert g.repository + "/" + g.workflowPath + "@{0}" == before + "{0}";
    assert ", github.ref" == ", " + "github.ref";
    var inside := "(" + (Quoted(before + "{0}") + ", " + "github.ref" + ")");
    assert WorkflowRefClause(g) == ("github.workflow_ref" + (" == " + "format")) + inside;
  }

  lemma EventSpelt(rest: string)
    ensures "github.event_name != " + rest == "github.event_name" + (" != " + rest)
  {
    assert "github.event_name != " == "github.event_name" + " != ";
  }

  lemma EventMeans(ctx: Context)
    ensures Evaluated("github.event_name != " + Quoted("pull_request"), ctx).truthy
            <==> !ctx.same(ctx.property("github.event_name"), "pull_request")
  {
    NamesArePaths();
    EventSpelt(Quoted("pull_request"));
    UnequalRead("github.event_name", Quoted("pull_request"), ctx);
    LiteralOperand("pull_request", ctx);
  }

  lemma UserSpelt(rest: string)
    ensures "github.event.pull_request.user.id == " + rest == "github.event.pull_request.user.id" + (" == " + rest)
  {
    assert "github.event.pull_request.user.id == " == "github.event.pull_request.user.id" + " == ";
  }

  lemma UserMeans(n: nat, ctx: Context)
    ensures Evaluated("github.event.pull_request.user.id == " + Decimal(n), ctx).truthy
            <==> ctx.same(ctx.property("github.event.pull_request.user.id"), Decimal(n))
  {
    UserIsPath();
    UserSpelt(Decimal(n));
    EqualRead("github.event.pull_request.user.id", Decimal(n), ctx);
    NumberOperand(n, ctx);
  }

  lemma RepositorySpelt()
    ensures " == github.event.repository.id" == " == " + "github.event.repository.id"
  {
  }

  lemma HeadMeans(ctx: Context)
    ensures Evaluated("github.event.pull_request.head.repo.id" + " == github.event.repository.id", ctx).truthy
            <==> ctx.same(ctx.property("github.event.pull_request.head.repo.id"), ctx.property("github.event.repository.id"))
  {
    HeadIsPath();
    RepositoryIsPath();
    RepositorySpelt();
    EqualRead("github.event.pull_request.head.repo.id", "github.event.repository.id", ctx);
    PathOperand("github.event.repository.id", ctx);
  }

  // ---- the guard ----

  // An operand that is a bare clause between spaces counts as its clause.
  lemma ClauseTruth(p: Primary, before: string, clause: string, after: string, env: string -> Value)
    requires WellFormedOperand(p) && PrimaryText(p) == before + clause + after
    requires AllSpace(before) && AllSpace(after) && Solid(clause)
    ensures PrimaryValue(p, env).truthy <==> env(clause).truthy
  {
    ClauseValue(p, before, clause, after, env);
  }

  lemma AndValue(e: Disjunction, env: string -> Value)
    requires e.Last? && e.term.AndThen? && e.term.rest.Only?
    ensures DisjunctionValue(e, env).truthy
            <==> PrimaryValue(e.term.operand, env).truthy && PrimaryValue(e.term.rest.operand, env).truthy
  {
    assert ConjunctionValue(e.term.rest, env) == PrimaryValue(e.term.rest.operand, env);
  }

  lemma OrValue(e: Disjunction, env: string -> Value)
    requires e.OrElse? && e.term.Only? && e.others.Last? && e.others.term.Only?
    ensures DisjunctionValue(e, env).truthy
            <==> PrimaryValue(e.term.operand, env).truthy || PrimaryValue(e.others.term.operand, env).truthy
  {
    assert DisjunctionValue(e.others, env) == ConjunctionValue(e.others.term, env) == PrimaryValue(e.others.term.operand, env);
  }

  lemma ThreeValue(e: Disjunction, env: string -> Value)
    requires e.Last? && e.term.AndThen? && e.term.rest.AndThen? && e.term.rest.rest.Only?
    ensures DisjunctionValue(e, env).truthy
            <==> (&& PrimaryValue(e.term.operand, env).truthy && PrimaryValue(e.term.rest.operand, env).truthy
                  && PrimaryValue(e.term.rest.rest.operand, env).truthy)
  {
    AndValue(Last(e.term.rest), env);
  }

  // Every reading of `left && right`.
  lemma AndMeans(e: Disjunction, left: string, right: string, env: string -> Value)
    requires WellFormed(e) && DisjunctionText(e) == left + (" && " + right)
    requires OperatorFree(left) && Solid(left) && OperatorFree(right) && Solid(right)
    ensures DisjunctionValue(e, env).truthy <==> env(left).truthy && env(right).truthy
  {
    AndSpelt(left, right);
    PaddedClause("", left, " ");
    PaddedClause(" ", right, "");
    assert "" + left + " " == left + " " && " " + right + "" == " " + right;
    ReadAnd(e, left + " ", " " + right);
    var rest := e.(term := e.term.rest);
    ReadEnd(rest, " " + right);
    ClauseTruth(e.term.operand, "", left, " ", env);
    ClauseTruth(e.term.rest.operand, " ", right, "", env);
    AndValue(e, env);
  }

  lemma AndSpelt(left: string, right: string)
    ensures left + (" && " + right) == (left + " ") + ("&&" + (" " + right))
  {
    assert " && " + right == " " + ("&&" + (" " + right));
  }

  lemma OrSpelt(left: string, both: string)
    ensures left + (" || " + ("(" + (both + ")"))) == (left + " ") + ("||" + (" " + ("(" + (both + (")" + "")))))
  {
    var group := "(" + (both + ")");
    assert both + (")" + "") == both + ")";
    assert " || " + group == " " + ("||" + (" " + group));
  }

  // Every reading of `left || (both)`, by what the readings of `both` mean.
  lemma OrGroup(e: Disjunction, left: string, both: string, env: string -> Value) returns (inner: Disjunction)
    requires WellFormed(e) && DisjunctionText(e) == left + (" || " + ("(" + (both + ")")))
    requires OperatorFree(left) && Solid(left) && Balanced(both)
    ensures WellFormed(inner) && DisjunctionText(inner) == both
    ensures DisjunctionValue(e, env).truthy <==> env(left).truthy || DisjunctionValue(inner, env).truthy
  {
    OrSpelt(left, both);
    PaddedClause("", left, " ");
    assert "" + left + " " == left + " ";
    var group := " " + ("(" + (both + (")" + "")));
    ReadOr(e, left + " ", group);
    GroupTextFree(" ", both, "");
    ReadEnd(e.others, group);
    ReadGroup(e.others.term.operand, " ", both, "");
    ClauseTruth(e.term.operand, "", left, " ", env);
    OrValue(e, env);
    inner := e.others.term.operand.inner;
  }

  lemma BothBalanced(first: string, second: string)
    requires IsPlain(first) && IsPlain(second)
    ensures Balanced(first + (" && " + second))
  {
    PlainFree(first);
    PlainFree(second);
    FreeIsBalanced(first);
    FreeIsBalanced(second);
    SpacedBalanced("&&");
    JoinBalanced(" && ", second);
    JoinBalanced(first, " && " + second);
  }

  // Every reading of `left || (first && second)`.
  lemma EitherMeans(e: Disjunction, left: string, first: string, second: string, env: string -> Value)
    requires WellFormed(e) && DisjunctionText(e) == left + (" || " + ("(" + (first + (" && " + second) + ")")))
    requires OperatorFree(left) && Solid(left) && IsPlain(first) && OperatorFree(first) && Solid(first)
    requires IsPlain(second) && OperatorFree(second) && Solid(second)
    ensures DisjunctionValue(e, env).truthy <==> env(left).truthy || (env(first).truthy && env(second).truthy)
  {
    BothBalanced(first, second);
    var inner := OrGroup(e, left, first + (" && " + second), env);
    AndMeans(inner, first, second, env);
  }

  // The truth of the three clauses of the pull-request condition.
  predicate ClauseTruths(g: Gate, env: string -> Value, event: bool, user: bool, head: bool)
    requires ValidGate(g)
  {
    && event == env("github.event_name != " + Quoted("pull_request")).truthy
    && user == env("github.event.pull_request.user.id == " + Decimal(g.ownerUserId)).truthy
    && head == env("github.event.pull_request.head.repo.id" + " == github.event.repository.id").truthy
  }

  lemma PullRequestRead(e: Disjunction, g: Gate, env: string -> Value) returns (event: bool, user: bool, head: bool)
    requires ValidGate(g) && WellFormed(e) && DisjunctionText(e) == PullRequestText(g)
    ensures ClauseTruths(g, env, event, user, head)
    ensures DisjunctionValue(e, env).truthy <==> event || (user && head)
  {
    var left := "github.event_name != " + Quoted("pull_request");
    var first := "github.event.pull_request.user.id == " + Decimal(g.ownerUserId);
    var second := "github.event.pull_request.head.repo.id" + " == github.event.repository.id";
    PullRequestClauses(g);
    EitherMeans(e, left, first, second, env);
    event, user, head := env(left).truthy, env(first).truthy, env(second).truthy;
  }

  lemma EventRead(ctx: Context, env: string -> Value)
    requires ReadBy(env, ctx)
    ensures env("github.event_name != " + Quoted("pull_request")).truthy <==> !ctx.same(ctx.property("github.event_name"), "pull_request")
  {
    EventMeans(ctx);
  }

  lemma UserRead(n: nat, ctx: Context, env: string -> Value)
    requires ReadBy(env, ctx)
    ensures env("github.event.pull_request.user.id == " + Decimal(n)).truthy
            <==> ctx.same(ctx.property("github.event.pull_request.user.id"), Decimal(n))
  {
    UserMeans(n, ctx);
  }

  lemma HeadRead(ctx: Context, env: string -> Value)
    requires ReadBy(env, ctx)
    ensures env("github.event.pull_request.head.repo.id" + " == github.event.repository.id").truthy
            <==> ctx.same(ctx.property("github.event.pull_request.head.repo.id"), ctx.property("github.event.repository.id"))
  {
    HeadMeans(ctx);
  }

  lemma TruthsMean(g: Gate, ctx: Context, env: string -> Value, event: bool, user: bool, head: bool)
    requires ValidGate(g) && ClauseTruths(g, env, event, user, head) && ReadBy(env, ctx)
    ensures event || (user && head) <==> OwnPullRequest(g, ctx)
  {
    EventRead(ctx, env);
    UserRead(g.ownerUserId, ctx, env);
    HeadRead(ctx, env);
  }

  lemma PullRequestMeans(e: Disjunction, g: Gate, ctx: Context, env: string -> Value)
    requires ValidGate(g) && WellFormed(e) && DisjunctionText(e) == PullRequestText(g) && ReadBy(env, ctx)
    ensures DisjunctionValue(e, env).truthy <==> OwnPullRequest(g, ctx)
  {
    var event, user, head := PullRequestRead(e, g, env);
    TruthsMean(g, ctx, env, event, user, head);
  }

  lemma PullRequestClauses(g: Gate)
    requires ValidGate(g)
    ensures var left := "github.event_name != " + Quoted("pull_request"); OperatorFree(left) && Solid(left)
    ensures var first := "github.event.pull_request.user.id == " + Decimal(g.ownerUserId); IsPlain(first) && OperatorFree(first) && Solid(first)
    ensures var second := "github.event.pull_request.head.repo.id" + " == github.event.repository.id";
            IsPlain(second) && OperatorFree(second) && Solid(second)
  {
    BareEvent();
    BareUser();
    BareHeadRepository();
    BareRepository();
    DecimalPlain(g.ownerUserId);
    ComparedFree("github.event_name != ", "pull_request");
    PlainJoin("github.event.pull_request.user.id == ", Decimal(g.ownerUserId));
    PlainJoin("github.event.pull_request.head.repo.id", " == github.event.repository.id");
    PlainFree("github.event.pull_request.user.id == " + Decimal(g.ownerUserId));
    PlainFree("github.event.pull_request.head.repo.id" + " == github.event.repository.id");
  }

  // Every reading of the rendered guard.
  lemma GuardMeans(e: Disjunction, g: Gate, ctx: Context, env: string -> Value)
    requires ValidGate(g) && WellFormed(e) && DisjunctionText(e) == GuardText(ClausesOf(g)) && ReadBy(env, ctx)
    ensures DisjunctionValue(e, env).truthy <==> ByOwner(g, ctx) && OwnPullRequest(g, ctx) && EnrolledWorkflow(g, ctx)
  {
    var c := ClausesOf(g);
    ClausesProper(g);
    var inner := GuardRead(e, c, env);
    PullRequestMeans(inner, g, ctx, env);
    OwnerMeans(g, ctx);
    WorkflowMeans(g, ctx);
  }

  lemma GuardRead(e: Disjunction, c: Clauses, env: string -> Value) returns (inner: Disjunction)
    requires Proper(c) && WellFormed(e) && DisjunctionText(e) == GuardText(c)
    ensures WellFormed(inner) && DisjunctionText(inner) == c.pullRequest
    ensures DisjunctionValue(e, env).truthy <==> env(c.owner).truthy && DisjunctionValue(inner, env).truthy && env(c.workflow).truthy
  {
    var group := " " + ("(" + (c.pullRequest + (")" + " ")));
    SpaceAfter(c.owner);
    SpaceBefore(c.workflow);
    GroupTextFree(" ", c.pullRequest, " ");
    ReadAnd(e, c.owner + " ", group + ("&&" + (" " + c.workflow)));
    var second := e.(term := e.term.rest);
    ReadAnd(second, group, " " + c.workflow);
    ReadGroup(second.term.operand, " ", c.pullRequest, " ");
    var third := second.(term := second.term.rest);
    ReadEnd(third, " " + c.workflow);
    assert "" + c.owner + " " == c.owner + " " && " " + c.workflow + "" == " " + c.workflow;
    ClauseTruth(e.term.operand, "", c.owner, " ", env);
    ClauseTruth(third.term.operand, " ", c.workflow, "", env);
    ThreeValue(e, env);
    inner := second.term.operand.inner;
  }

  // ---- the selection ----

  predicate Selected(g: Gate, ctx: Context)
    requires ValidGate(g)
  {
    SwitchedOn(g, ctx) && ByOwner(g, ctx) && OwnPullRequest(g, ctx) && EnrolledWorkflow(g, ctx)
  }

  lemma JsonMeans(labels: string, ctx: Context)
    ensures Evaluated(JsonClause(labels), ctx) == Value(true, labels)
  {
    var s := JsonClause(labels);
    assert "fromJSON" + "(" + "'" == "fromJSON('";
    assert s == "fromJSON('" + (labels + "')");
    assert s[..9] == "fromJSON(";
    assert s[10..|s| - 2] == labels;
  }

  lemma FallbackMeans(ctx: Context)
    ensures Evaluated(Quoted("ubuntu-latest"), ctx) == Value(true, "ubuntu-latest")
  {
    var s := Quoted("ubuntu-latest");
    QuotedHasNoSpace();
    LiteralMeans(s, "ubuntu-latest", ctx);
  }

  lemma LiteralMeans(s: string, b: string, ctx: Context)
    requires s == Quoted(b) && b != "" && forall k :: 0 <= k < |s| ==> s[k] != ' '
    ensures Evaluated(s, ctx) == Value(true, b)
  {
    NoSpaceAt(s);
    assert s[0] == '\'' && s[1..|s| - 1] == b && |s| > 2;
    assert s[|s|..] == "";
  }

  lemma QuotedHasNoSpace()
    ensures forall k :: 0 <= k < |Quoted("ubuntu-latest")| ==> Quoted("ubuntu-latest")[k] != ' '
  {
  }

  lemma {:induction false} NoSpaceAt(s: string)
    requires forall k :: 0 <= k < |s| ==> s[k] != ' '
    ensures SpaceAt(s) == |s|
  {
    if s != "" {
      NoSpaceAt(s[1..]);
    }
  }

  // Any reading of a rendered text, by what its guard's reading means.
  lemma SelectionRead(e: Disjunction, c: Clauses, env: string -> Value) returns (inner: Disjunction)
    requires Proper(c) && '\'' !in c.labels && WellFormed(e) && DisjunctionText(e) == Inner(c)
    ensures WellFormed(inner) && DisjunctionText(inner) == GuardText(c)
    ensures var json := env(JsonClause(c.labels));
            DisjunctionValue(e, env)
            == if env(c.switched).truthy && DisjunctionValue(inner, env).truthy && json.truthy then json else env(c.fallback)
  {
    Regrouped(c, GuardText(c));
    OperandsFree(c);
    JsonProper(c.labels);
    GuardSplits(c);
    SplitBalanced("", GuardText(c), Mask(GuardText(c), false), 0);
    inner := ReadOperators(e, c.switched, GuardText(c), JsonClause(c.labels), c.fallback);
    OperatorValues(e, c, JsonClause(c.labels), env);
  }

  lemma RenderedInner(g: Gate)
    requires ValidGate(g)
    ensures InnerOf(Render(g).value) == Inner(ClausesOf(g))
  {
    DelimitedInner(Inner(ClausesOf(g)));
  }

  // However a rendered selection is read, it is the required labels exactly when the switch is on and the run is the
  // owner's, of the enrolled workflow and not from a foreign pull request, and `ubuntu-latest` otherwise.
  lemma RenderedMeans(g: Gate, e: Disjunction, ctx: Context, env: string -> Value)
    requires ValidGate(g) && Embeddable(g.runnerLabel) && ReadBy(env, ctx)
    requires WellFormed(e) && DisjunctionText(e) == InnerOf(Render(g).value)
    ensures DisjunctionValue(e, env).content == if Selected(g, ctx) then LabelsJson(g) else "ubuntu-latest"
  {
    var c := ClausesOf(g);
    ClausesProper(g);
    EmbeddableLabels(g.runnerLabel);
    RenderedInner(g);
    var inner := SelectionRead(e, c, env);
    GuardMeans(inner, g, ctx, env);
    SwitchMeans(g, ctx);
    JsonMeans(c.labels, ctx);
    FallbackMeans(ctx);
  }
}
