/** The policy engine: construction with the default-table fallback and
    version derivation, and the two-step lookup that turns a request into a
    decision. */
module PolicyEngine {
  import opened Wrappers
  import opened Policy
  import opened Text
  import Decimal

  /** Result of the default-deny branch: a risk level the default table does
      not use, a fixed approval count of 99 (a caller's table may also contain
      it, so it is not a reserved value), and a fixed reason. */
  const DenyRiskLevel: string := "critical"
  const DenyApprovals: int := 99
  const NoMatchReason: string := "No matching policy found for the given artifact type and environment."

  /** An evaluation request. Missing and null fields are both `None`. The
      `actions` list and the other request metadata (an agent identifier, a
      client timestamp) are accepted and never read by the decision logic. */
  datatype Request = Request(
    artifactType: Option<string>,
    environment: Option<string>,
    actions: seq<string>,
    metadata: map<string, Scalar>)

  datatype Verdict = Allow | RequireApproval | Deny {
    /** The value of the `decision` field on the wire. */
    function Name(): (s: string)
      ensures this == Allow <==> s == "ALLOW"
      ensures this == RequireApproval <==> s == "REQUIRE_APPROVAL"
      ensures this == Deny <==> s == "DENY"
    {
      match this
      case Allow => "ALLOW"
      case RequireApproval => "REQUIRE_APPROVAL"
      case Deny => "DENY"
    }
  }

  datatype Decision = Decision(
    verdict: Verdict,
    riskLevel: string,
    approvalsRequired: int,
    constraints: Constraints,
    policyVersion: string,
    reason: string,
    timestamp: string)

  /** Decisions that agree on every field except the timestamp. */
  predicate SameExceptTimestamp(d1: Decision, d2: Decision) {
    d1.(timestamp := "") == d2.(timestamp := "")
  }

  /** An engine: the active table and the version derived from it. */
  datatype Engine = Engine(policies: Table, version: string)

  /** Construction. A missing table or an empty one (both falsy in the source)
      installs the default table; any other table is used as given. The version
      is the digest of the installed table. */
  function New(policies: Option<Table>, hash: Hasher): (e: Engine)
    ensures policies.Some? && policies.value != map[] ==> e.policies == policies.value
    ensures policies.None? || policies.value == map[] ==> e.policies == DefaultTable()
    ensures e.policies != map[]
    ensures IsHexDigest(e.version)
    ensures e.version == hash(e.policies)
  {
    var table := if policies.Some? && policies.value != map[] then policies.value else DefaultTable();
    Engine(table, hash(table))
  }

  /** The request names an artifact type that is a key of the table and an
      environment that is a key of that artifact's map. */
  predicate HasMatch(t: Table, req: Request) {
    && req.artifactType.Some?
    && req.environment.Some?
    && req.artifactType.value in t
    && req.environment.value in t[req.artifactType.value]
  }

  /** The rule a request selects. */
  predicate Governs(t: Table, req: Request, rule: Rule) {
    HasMatch(t, req) && t[req.artifactType.value][req.environment.value] == rule
  }

  /** The two-step lookup: artifact type first, then environment. */
  function Lookup(t: Table, req: Request): (r: Option<Rule>)
    ensures r.Some? <==> HasMatch(t, req)
    ensures r.Some? ==> Governs(t, req, r.value)
    ensures forall rule :: Governs(t, req, rule) ==> r == Some(rule)
  {
    match req.artifactType
    case None => None
    case Some(artifact) =>
      if artifact !in t then None
      else
        var envPolicies := t[artifact];
        match req.environment
        case None => None
        case Some(env) => if env in envPolicies then Some(envPolicies[env]) else None
  }

  /** "Requires {n} approval(s)", with `n` rendered as Python renders an int. */
  function RequiresClause(n: int): string {
    "Requires " + Decimal.IntToString(n) + " approval(s)"
  }

  function AllowReason(env: string): (s: string)
    ensures Contains(s, env)
  {
    ContainsInfix("Low-risk action in ", env, " environment. No approval required.");
    "Low-risk action in " + env + " environment. No approval required."
  }

  /** The approval reason up to the rendered count. */
  function ApprovalHead(riskLevel: string, env: string): string {
    Capitalize(riskLevel) + "-risk action in " + env + " environment. Requires "
  }

  function ApprovalReason(riskLevel: string, env: string, n: int): (s: string)
    ensures Contains(s, env)
    ensures Contains(s, RequiresClause(n))
  {
    var count := Decimal.IntToString(n);
    var s := ApprovalHead(riskLevel, env) + count + " approval(s).";
    var lead := Capitalize(riskLevel) + "-risk action in ";
    assert s == lead + env + (" environment. Requires " + count + " approval(s).");
    ContainsInfix(lead, env, " environment. Requires " + count + " approval(s).");
    assert s == (lead + env + " environment. ") + RequiresClause(n) + ".";
    ContainsInfix(lead + env + " environment. ", RequiresClause(n), ".");
    s
  }

  /** Evaluates a request against the engine's table. `clock` is the
      wall-clock reading (UTC, ISO-8601 without the zone suffix) taken for
      this call. */
  function Evaluate(e: Engine, req: Request, clock: string): (d: Decision)
    ensures d.policyVersion == e.version
    ensures |d.timestamp| > 0 && d.timestamp[|d.timestamp| - 1] == 'Z'
    ensures d.verdict == Deny <==> !HasMatch(e.policies, req)
    ensures d.verdict == Deny ==>
      && d.riskLevel == DenyRiskLevel
      && d.approvalsRequired == DenyApprovals
      && d.constraints == map[]
      && d.reason == NoMatchReason
    ensures forall rule :: Governs(e.policies, req, rule) ==>
      && d.riskLevel == rule.riskLevel
      && d.approvalsRequired == rule.approvalsRequired
      && d.constraints == rule.constraints
      && (d.verdict == Allow <==> rule.approvalsRequired == 0)
      && (d.verdict == RequireApproval <==> rule.approvalsRequired != 0)
  {
    var stamp := clock + "Z";
    match Lookup(e.policies, req)
    case None =>
      Decision(Deny, DenyRiskLevel, DenyApprovals, map[], e.version, NoMatchReason, stamp)
    case Some(rule) =>
      var env := req.environment.value;
      if rule.approvalsRequired == 0 then
        Decision(Allow, rule.riskLevel, rule.approvalsRequired, rule.constraints, e.version,
                 AllowReason(env), stamp)
      else
        Decision(RequireApproval, rule.riskLevel, rule.approvalsRequired, rule.constraints, e.version,
                 ApprovalReason(rule.riskLevel, env, rule.approvalsRequired), stamp)
  }
}
