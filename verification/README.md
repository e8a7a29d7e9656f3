# Policy engine model

A Dafny model of the policy-decision engine of the execution kernel
(`kernel/engine.py`, class `PolicyEngine`). The engine holds a two-level
policy table: artifact type → environment → rule. Each rule carries a risk
level, a required approval count and a constraints map. For each request
the engine returns a decision record: `ALLOW`, `REQUIRE_APPROVAL` or `DENY`,
the risk level, the approval count, the constraints, the policy version, a
human-readable reason and a timestamp.

Modules:

- `Wrappers` (`wrappers.dfy`): `Option`. A request field that is missing or
  `None` is modelled as `None`.
- `Decimal` (`decimal.dfy`): Python's `str(int)` as used inside the reason
  f-string, and a parser that shows the rendered text denotes the count.
- `Text` (`text.dfy`): ASCII case mapping, `str.capitalize`, and substring
  occurrence (Python's `in` on strings).
- `Policy` (`policy.dfy`): constraint scalars, rules, the table type, the
  built-in default table, and the `Hasher` type that stands for
  SHA-256 over the sorted-key JSON serialisation.
- `PolicyEngine` (`engine.dfy`): construction (`New`), the two-step lookup,
  the reason texts and `Evaluate`.
- `EngineProperties` (`properties.dfy`): lemmas relating decisions to the
  table, to each other and to construction, plus the default-table
  scenarios the unit tests pin down.

Modelling choices:

- The table is `map<string, map<string, Rule>>`. A Dafny map is a value
  with no insertion order. So any function of the table, in particular the
  version, depends on content only. This is what `sort_keys=True` secures
  in the source.
- The version is `hash(table)` for a caller-supplied `Hasher`. A `Hasher` is
  any function from tables to 64-character lower-case hex strings, the shape
  of `hexdigest()`. SHA-256 and `json.dumps` themselves are not modelled.
- The wall clock is a parameter. `Evaluate` takes the clock reading
  (`datetime.utcnow().isoformat()`) as a string and appends `"Z"`.
- `approvals_required` is an `int`. The source never checks its sign, so a
  negative count also gives `REQUIRE_APPROVAL`, and the reason renders it
  with a minus sign.
- `evaluate` neither reads nor writes engine state other than the table and
  version. The model makes it a pure function of the engine value, so "the
  table and version are unchanged" holds by construction.

Behaviour of `kernel/engine.py` worth knowing:

- `kernel/engine.py` has no file loading, environment override or reload:
  the table is fixed at construction. The model has no reload either.
- `policies or {...}` (`kernel/engine.py:8`) also replaces an explicitly
  empty table with the default table. `PolicyEngine.New` models this.
- The sign of the approval count is never checked (see above).

## Model

| member | source | states |
|---|---|---|
| PolicyEngine.Verdict.Name | kernel/engine.py:52-71 | The wire value of the decision field is "ALLOW" exactly for an allow, "REQUIRE_APPROVAL" exactly for an approval gate and "DENY" exactly for a deny |
| EngineProperties.VerdictNamesDistinct | kernel/engine.py:52-71 | Two verdicts have the same wire value exactly when they are the same verdict |
| Policy.DefaultTable | kernel/engine.py:8-40 | The built-in table has exactly the artifact types webapp, page and automation, with exactly the environments listed for each |
| PolicyEngine.New | kernel/engine.py:6-41 | No table or an empty table installs the default table; any other table is installed as given; the installed table is never empty; the version is the hex digest of the installed table |
| PolicyEngine.Lookup | kernel/engine.py:59-62 | A rule is found exactly when both fields are present, the artifact type is an outer key and the environment is a key of that artifact's map; the rule found is the one the table stores there |
| PolicyEngine.AllowReason | kernel/engine.py:69 | The low-risk reason names the request's environment |
| PolicyEngine.ApprovalReason | kernel/engine.py:72 | The approval reason names the environment and contains "Requires n approval(s)" for the rule's count n |
| PolicyEngine.Evaluate | kernel/engine.py:43-82 | DENY exactly when no rule matches, and then the sentinels critical / 99 / empty constraints / no-match reason; on a match the rule's risk level, count and constraints are copied, ALLOW exactly when the count is 0 and REQUIRE_APPROVAL exactly when it is not; every decision carries the engine's version and a timestamp ending in "Z" |
| Decimal.IntToString | kernel/engine.py:72 | The rendered count is non-empty, all digits after an optional minus sign, with a minus sign exactly for negative counts, starts with a zero digit only for the count 0, and is exactly "0" for 0 (no leading zeros) |
| Decimal.ParseIntOfIntToString | kernel/engine.py:72 | Reading the rendered count back gives the count |
| Decimal.IntToStringInjective | kernel/engine.py:72 | Two counts render the same exactly when they are equal |
| Text.Capitalize | kernel/engine.py:72 | Same length, each character the same letter up to case, first character not lower-case, the rest not upper-case |
| EngineProperties.DenyOnMiss | kernel/engine.py:51-61 | A missing or null field, an unknown artifact type or an unknown environment yields exactly the default-deny decision with the engine's version |
| EngineProperties.AllowWhenNoApprovalRequired | kernel/engine.py:67-69 | A matched rule with count 0 gives ALLOW with the reason "Low-risk action in {environment} environment. No approval required." |
| EngineProperties.RequireApprovalStatesCount | kernel/engine.py:70-72 | A matched rule with a non-zero count gives REQUIRE_APPROVAL with the reason "{Capitalized risk level}-risk action in {environment} environment. Requires {n} approval(s).", which therefore contains "Requires {n} approval(s)" and the environment |
| EngineProperties.ApprovalReasonDeterminesCount | kernel/engine.py:72 | Two approval reasons for the same risk level and environment are equal exactly when their counts are equal |
| EngineProperties.CaseSensitiveMatching | kernel/engine.py:59-61 | When no key has an upper-case letter, a request field with one is never matched and yields DENY |
| EngineProperties.ActionsIgnored | kernel/engine.py:47-49 | Requests that differ only in actions and metadata get identical decisions |
| EngineProperties.DeterministicExceptTimestamp | kernel/engine.py:74-81 | Two evaluations of one request agree on every field except the timestamp, and fully when the clock readings agree |
| EngineProperties.DefaultEnginesAgree | kernel/engine.py:8-41 | Constructing with no table, an empty table or the default table gives the same engine, hence the same non-empty version |
| EngineProperties.VersionIgnoresInsertionOrder | kernel/engine.py:41 | Tables written in different key orders get the same version |
| EngineProperties.VersionStable | kernel/engine.py:79 | Every decision, for any request, carries the version fixed at construction |
| EngineProperties.DefaultWebappProduction | tests/test_engine.py:14-20 | With the default table, webapp/production requires 2 approvals at high risk, forbids self-approval, and its reason contains "Requires 2 approval(s)" |
| EngineProperties.DefaultMediumRisk | tests/test_engine.py:22-34 | With the default table, webapp/staging and page/production each require 1 approval at medium risk |
| EngineProperties.DefaultPageDevelopment | tests/test_engine.py:36-41 | With the default table, page/development is allowed at low risk with 0 approvals |
| EngineProperties.DefaultAutomationProduction | tests/test_engine.py:43-48 | With the default table, automation/production requires approval at high risk and requires isolation |
| EngineProperties.DefaultMisses | tests/test_engine.py:87-106 | With the default table, page/staging, automation/development and upper-case variants of keys are denied, and the empty request gets the sentinel count 99 |

## Left out

- `kernel/service.py`: the HTTP handler, request-body parsing, the 400/404 responses and the stdout decision log are I/O.
- The `__main__` demonstration block (`kernel/engine.py:84-95`).
- SHA-256 and `json.dumps` (`kernel/engine.py:41`): foreign library calls, replaced by the `Hasher` parameter. That different tables get different versions rests on SHA-256's collision resistance and is not stated.
- PolicyEngine.New: the version is only known to be some 64-character hex digest of the table, not the SHA-256 value itself, because the hash is not modelled.
- The timestamp format (`datetime.utcnow().isoformat()`): the clock reading is an opaque string parameter; only the appended "Z" is modelled.
- Text.Capitalize: models `str.capitalize` for ASCII letters only, so "same length" is an ASCII-only claim. Python title-cases the first character and lower-cases the rest with full Unicode mappings, which can change the length (`"ß".capitalize() == "Ss"`); these mappings are not modelled.
- Reload, file loading, environment overrides and atomic table swapping: `kernel/engine.py` has no such mechanism.
- Request field values that are not strings: a hashable non-string never matches a string key and behaves like `None`. An unhashable `artifact_type` (a list or object) always raises `TypeError` at `kernel/engine.py:59`. An unhashable `environment` raises `TypeError` at `kernel/engine.py:61` only when the artifact type matched; otherwise the request is denied. The HTTP layer turns a `TypeError` into an error response.
- Malformed rules: a rule missing `risk_level`, `approvals_required` or `constraints` raises `KeyError` in the source. The model's `Rule` record always has all three fields.
- Rule fields of other types: the model types `approvals_required` as `int` and `risk_level` as `string`. In the source a count such as `"0"`, `True` or `2.0` would change the verdict or the reason text, and a non-string risk level raises `AttributeError` at `kernel/engine.py:72`.
- Non-dict falsy table arguments (`0`, `""`, `[]`): they would also select the default table; the model's argument is an optional table.
- Constraint values other than booleans, integers and strings (floats, null, nested lists or objects): they are passed through verbatim in the source, like the modelled ones.
- Aliasing: the source keeps a reference to the caller's dict, and every matched decision returns the table's own `constraints` dict (`kernel/engine.py:65`, `kernel/engine.py:78`). So a caller that later mutates either one changes evaluation without changing the version. Dafny tables are immutable values.
