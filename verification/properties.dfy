/** Properties of the policy engine that relate its decisions to the table,
    to each other, and to the engine's construction. */
module EngineProperties {
  import opened Wrappers
  import opened Policy
  import opened Text
  import Decimal
  import opened PolicyEngine

  /** Any miss -- a missing or null field, an unknown artifact type, or an
      environment the artifact has no rule for -- yields the default deny. */
  lemma DenyOnMiss(e: Engine, req: Request, clock: string)
    requires
      || req.artifactType.None?
      || req.environment.None?
      || req.artifactType.value !in e.policies
      || req.environment.value !in e.policies[req.artifactType.value]
    ensures Evaluate(e, req, clock)
      == Decision(Deny, "critical", 99, map[], e.version,
                  "No matching policy found for the given artifact type and environment.", clock + "Z")
  {
  }

  /** A matched rule with no approval gate allows, with the fixed
      low-risk reason naming the environment. */
  lemma AllowWhenNoApprovalRequired(e: Engine, req: Request, rule: Rule, clock: string)
    requires Governs(e.policies, req, rule)
    requires rule.approvalsRequired == 0
    ensures var d := Evaluate(e, req, clock);
      && d.verdict == Allow
      && d.reason == "Low-risk action in " + req.environment.value + " environment. No approval required."
  {
  }

  /** A matched rule with a non-zero approval count requires approval, and
      the reason states that exact count. */
  lemma RequireApprovalStatesCount(e: Engine, req: Request, rule: Rule, clock: string)
    requires Governs(e.policies, req, rule)
    requires rule.approvalsRequired != 0
    ensures var d := Evaluate(e, req, clock);
      && d.verdict == RequireApproval
      && d.reason == Capitalize(rule.riskLevel) + "-risk action in " + req.environment.value
                     + " environment. " + RequiresClause(rule.approvalsRequired) + "."
      && Contains(d.reason, "Requires " + Decimal.IntToString(rule.approvalsRequired) + " approval(s)")
      && Contains(d.reason, req.environment.value)
  {
  }

  /** The count in an approval reason can be read back: different counts
      give different reasons. */
  lemma ApprovalReasonDeterminesCount(riskLevel: string, env: string, n: int, m: int)
    ensures ApprovalReason(riskLevel, env, n) == ApprovalReason(riskLevel, env, m) <==> n == m
  {
    if ApprovalReason(riskLevel, env, n) == ApprovalReason(riskLevel, env, m) {
      MiddleCancel(ApprovalHead(riskLevel, env), Decimal.IntToString(n), Decimal.IntToString(m), " approval(s).");
      Decimal.IntToStringInjective(n, m);
    }
  }

  /** Matching is exact: when no key of the table has an upper-case letter,
      an artifact type or environment that has one is never matched. */
  lemma CaseSensitiveMatching(e: Engine, req: Request, clock: string)
    requires forall a :: a in e.policies ==> !HasUpper(a)
    requires forall a, env :: a in e.policies && env in e.policies[a] ==> !HasUpper(env)
    requires || (req.artifactType.Some? && HasUpper(req.artifactType.value))
             || (req.environment.Some? && HasUpper(req.environment.value))
    ensures Evaluate(e, req, clock).verdict == Deny
  {
  }

  /** Two requests that differ only in their actions and metadata receive
      the same decision. */
  lemma ActionsIgnored(e: Engine, req1: Request, req2: Request, clock: string)
    requires req1.artifactType == req2.artifactType
    requires req1.environment == req2.environment
    ensures Evaluate(e, req1, clock) == Evaluate(e, req2, clock)
  {
  }

  /** Repeated evaluation of one request differs at most in the timestamp. */
  lemma DeterministicExceptTimestamp(e: Engine, req: Request, clock1: string, clock2: string)
    ensures SameExceptTimestamp(Evaluate(e, req, clock1), Evaluate(e, req, clock2))
    ensures clock1 == clock2 ==> Evaluate(e, req, clock1) == Evaluate(e, req, clock2)
  {
  }

  /** Constructing with no table, with an empty table, or with the default
      table itself installs the same table and hence the same version. */
  lemma DefaultEnginesAgree(hash: Hasher)
    ensures New(None, hash) == New(Some(map[]), hash)
    ensures New(None, hash) == New(Some(DefaultTable()), hash)
    ensures |New(None, hash).version| > 0
  {
  }

  /** The order in which a table's entries are written does not change the
      table, so it does not change the version either. */
  lemma VersionIgnoresInsertionOrder(t: Table, a1: string, m1: map<string, Rule>,
                                     a2: string, m2: map<string, Rule>, hash: Hasher)
    requires a1 != a2
    ensures New(Some(t[a1 := m1][a2 := m2]), hash).version == New(Some(t[a2 := m2][a1 := m1]), hash).version
  {
    assert t[a1 := m1][a2 := m2] == t[a2 := m2][a1 := m1];
  }

  /** Every decision carries the version fixed at construction, whatever
      the request. */
  lemma VersionStable(e: Engine, req1: Request, req2: Request, clock1: string, clock2: string)
    ensures Evaluate(e, req1, clock1).policyVersion == Evaluate(e, req2, clock2).policyVersion == e.version
  {
  }

  /** The default table on the webapp/production request: two approvals,
      high risk, self-approval forbidden. */
  lemma DefaultWebappProduction(hash: Hasher, clock: string)
    ensures var d := Evaluate(New(None, hash), Request(Some("webapp"), Some("production"), ["deploy"], map[]), clock);
      && d.verdict == RequireApproval && d.riskLevel == "high" && d.approvalsRequired == 2
      && "no_self_approval" in d.constraints && d.constraints["no_self_approval"] == Bool(true)
      && Contains(d.reason, "Requires 2 approval(s)")
  {
    var e := New(None, hash);
    var req := Request(Some("webapp"), Some("production"), ["deploy"], map[]);
    assert Governs(e.policies, req, DefaultTable()["webapp"]["production"]);
    assert Decimal.IntToString(2) == "2";
    assert RequiresClause(2) == "Requires 2 approval(s)";
  }

  /** The default table gates webapp/staging and page/production with one
      approval at medium risk. */
  lemma DefaultMediumRisk(hash: Hasher, clock: string)
    ensures var d := Evaluate(New(None, hash), Request(Some("webapp"), Some("staging"), ["deploy"], map[]), clock);
      d.verdict == RequireApproval && d.riskLevel == "medium" && d.approvalsRequired == 1
    ensures var d := Evaluate(New(None, hash), Request(Some("page"), Some("production"), ["deploy"], map[]), clock);
      d.verdict == RequireApproval && d.riskLevel == "medium" && d.approvalsRequired == 1
  {
  }

  /** The default table allows page/development without approval. */
  lemma DefaultPageDevelopment(hash: Hasher, clock: string)
    ensures var d := Evaluate(New(None, hash), Request(Some("page"), Some("development"), ["deploy"], map[]), clock);
      d.verdict == Allow && d.riskLevel == "low" && d.approvalsRequired == 0
  {
  }

  /** The default table gates automation/production and requires isolation. */
  lemma DefaultAutomationProduction(hash: Hasher, clock: string)
    ensures var d := Evaluate(New(None, hash), Request(Some("automation"), Some("production"), ["run"], map[]), clock);
      && d.verdict == RequireApproval && d.riskLevel == "high"
      && "isolation_required" in d.constraints && d.constraints["isolation_required"] == Bool(true)
  {
  }

  /** The default table denies pairs it has no rule for, upper-case
      variants of its keys, and the empty request. */
  lemma DefaultMisses(hash: Hasher, clock: string)
    ensures Evaluate(New(None, hash), Request(Some("page"), Some("staging"), [], map[]), clock).verdict == Deny
    ensures Evaluate(New(None, hash), Request(Some("automation"), Some("development"), [], map[]), clock).verdict == Deny
    ensures Evaluate(New(None, hash), Request(Some("WEBAPP"), Some("production"), [], map[]), clock).verdict == Deny
    ensures Evaluate(New(None, hash), Request(Some("webapp"), Some("PRODUCTION"), [], map[]), clock).verdict == Deny
    ensures Evaluate(New(None, hash), Request(None, None, [], map[]), clock).approvalsRequired == 99
  {
  }

  /** The wire names of the three verdicts are distinct. */
  lemma VerdictNamesDistinct(v1: Verdict, v2: Verdict)
    ensures v1.Name() == v2.Name() <==> v1 == v2
  {
  }
}
