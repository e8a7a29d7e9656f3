/** The policy table: artifact type -> environment -> rule, the built-in
    default table, and the content digest that versions a table. */
module Policy {

  /** A constraint value. Constraints are carried through to decisions
      without being interpreted. */
  datatype Scalar = Bool(b: bool) | Int(i: int) | Str(s: string)

  type Constraints = map<string, Scalar>

  /** The rule governing one (artifact type, environment) pair. An approval
      count of 0 means that no approval gate applies. */
  datatype Rule = Rule(riskLevel: string, approvalsRequired: int, constraints: Constraints)

  /** Outer keys are artifact types, inner keys are environments. */
  type Table = map<string, map<string, Rule>>

  /** The built-in table installed when the engine is given none. */
  function DefaultTable(): (t: Table)
    ensures t.Keys == {"webapp", "page", "automation"}
    ensures t["webapp"].Keys == {"production", "staging"}
    ensures t["page"].Keys == {"production", "development"}
    ensures t["automation"].Keys == {"production"}
  {
    map[
      "webapp" := map[
        "production" := Rule("high", 2, map["no_self_approval" := Bool(true), "log_all_actions" := Bool(true)]),
        "staging" := Rule("medium", 1, map["no_self_approval" := Bool(false), "log_all_actions" := Bool(true)])
      ],
      "page" := map[
        "production" := Rule("medium", 1, map["no_self_approval" := Bool(false), "log_all_actions" := Bool(true)]),
        "development" := Rule("low", 0, map["no_self_approval" := Bool(false), "log_all_actions" := Bool(false)])
      ],
      "automation" := map[
        "production" := Rule("high", 1, map["no_self_approval" := Bool(true), "log_all_actions" := Bool(true),
                                            "isolation_required" := Bool(true)])
      ]
    ]
  }

  predicate IsHexChar(c: char) {
    '0' <= c <= '9' || 'a' <= c <= 'f'
  }

  /** The shape of a SHA-256 `hexdigest()`: 64 lower-case hexadecimal characters. */
  predicate IsHexDigest(s: string) {
    |s| == 64 && forall i :: 0 <= i < |s| ==> IsHexChar(s[i])
  }

  /** A digest of a table's content: the SHA-256 hex digest of its
      sorted-key JSON serialisation. The hash itself is not modelled; any
      function from table values to hex digests may stand for it. Because a
      Dafny map is a value with no insertion order, a digest of this type
      depends on the table's content alone. */
  type Hasher = h: Table -> string | forall t :: IsHexDigest(h(t))
    witness (t: Table) => seq(64, _ => '0')
}
