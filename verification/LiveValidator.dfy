// packages/drift/src/live-validator.ts: findings, their redaction, and what a run
// of one adapter leaves to report.
module LiveValidator {
  import opened Wrappers
  import opened Text
  import opened Sorting
  import opened Json

  datatype Finding = Finding(
    id: string, provider: string, severity: string, status: string, resource: string, message: string,
    evidence: Json, observedAt: Option<string>)

  /** What an adapter's run comes to; a time-out is a failure. */
  datatype Outcome = Returned(findings: seq<Finding>) | Failed(reason: string)

  datatype Adapter = Adapter(provider: string, outcome: Outcome)

  datatype Summary = Summary(total: nat, pass: nat, fail: nat, degraded: nat, skipped: nat)

  datatype Report = Report(summary: Summary, findings: seq<Finding>, exitCode: nat)

  const PROVIDERS := {"aws-org", "pulumi-state", "eks", "github"}
  const SEVERITIES := {"info", "low", "medium", "high", "critical"}
  const STATUSES := {"pass", "fail", "degraded", "skipped"}
  const DEFAULT_TIMEOUT_MS := 30000
  const DEFAULT_MAX_CONCURRENCY := 2
  const DEFAULT_PAGE_CAP := 100

  // ----- redaction of evidence

  predicate IsSecretKey(key: string) {
    || Mentions(key, "secret") || Mentions(key, "token") || Mentions(key, "password") || Mentions(key, "credential")
    || Mentions(key, "kubeconfig") || Mentions(key, "accesskey") || Mentions(key, "access_key")
    || Mentions(key, "access-key")
  }

  const REDACTED := Str("[redacted]")
  const TOO_DEEP := Str("[redacted-depth-limit]")

  function RedactValue(value: Json, depth: nat, key: string): Json
    decreases value
  {
    if IsSecretKey(key) then REDACTED
    else if depth > 8 then TOO_DEEP
    else
      match value
      case Arr(items) => Arr(seq(|items|, i requires 0 <= i < |items| => RedactValue(items[i], depth + 1, "")))
      case Obj(fields) => Obj(map k | k in fields :: RedactValue(fields[k], depth + 1, k))
      case _ => value
  }

  /** No member under a secret key shows its value, and nothing lies deeper than the limit. */
  predicate IsClean(value: Json, depth: nat, key: string)
    decreases value
  {
    if IsSecretKey(key) then value == REDACTED
    else if depth > 8 then value == TOO_DEEP
    else
      match value
      case Arr(items) => forall i | 0 <= i < |items| :: IsClean(items[i], depth + 1, "")
      case Obj(fields) => forall k | k in fields :: IsClean(fields[k], depth + 1, k)
      case _ => true
  }

  lemma {:induction false} RedactedIsClean(value: Json, depth: nat, key: string)
    ensures IsClean(RedactValue(value, depth, key), depth, key)
    decreases value
  {
    if !IsSecretKey(key) && depth <= 8 {
      match value
      case Arr(items) =>
        forall i | 0 <= i < |items| ensures IsClean(RedactValue(items[i], depth + 1, ""), depth + 1, "") {
          RedactedIsClean(items[i], depth + 1, "");
        }
      case Obj(fields) =>
        forall k | k in fields ensures IsClean(RedactValue(fields[k], depth + 1, k), depth + 1, k) {
          RedactedIsClean(fields[k], depth + 1, k);
        }
      case _ =>
    }
  }

  /** Redaction changes exactly what is not clean. */
  lemma {:induction false} RedactionFixesClean(value: Json, depth: nat, key: string)
    ensures RedactValue(value, depth, key) == value <==> IsClean(value, depth, key)
    decreases value
  {
    RedactedIsClean(value, depth, key);
    if IsClean(value, depth, key) && !IsSecretKey(key) && depth <= 8 {
      match value
      case Arr(items) =>
        forall i | 0 <= i < |items| ensures RedactValue(items[i], depth + 1, "") == items[i] {
          RedactionFixesClean(items[i], depth + 1, "");
        }
      case Obj(fields) =>
        forall k | k in fields ensures RedactValue(fields[k], depth + 1, k) == fields[k] {
          RedactionFixesClean(fields[k], depth + 1, k);
        }
      case _ =>
    }
  }

  /** Rendering redacts once more, which changes nothing. */
  lemma RedactionIsIdempotent(value: Json, depth: nat, key: string)
    ensures RedactValue(RedactValue(value, depth, key), depth, key) == RedactValue(value, depth, key)
  {
    RedactedIsClean(value, depth, key);
    RedactionFixesClean(RedactValue(value, depth, key), depth, key);
  }

  // ----- one adapter, one finding

  function Upper(s: string): string {
    seq(|s|, i requires 0 <= i < |s| => if IsLower(s[i]) then 'A' + (s[i] - 'a') else s[i])
  }

  function DegradedFinding(provider: string, now: string, evidence: Json): Finding {
    Finding("HULUMI-LIVE-" + ReplaceChar(Upper(provider), '-', "_") + "-DEGRADED", provider, "medium", "degraded",
            provider, provider + " live posture could not be fully evaluated", evidence, Some(now))
  }

  function Truncated(pageCap: nat, returned: nat): Json {
    Obj(map["reason" := Str("page cap exceeded"), "pageCap" := Num(pageCap), "returned" := Num(returned)])
  }

  function Bounded(adapter: Adapter, pageCap: nat, now: string): seq<Finding> {
    match adapter.outcome
    case Failed(reason) => [DegradedFinding(adapter.provider, now, Obj(map["reason" := Str(reason)]))]
    case Returned(findings) =>
      if |findings| <= pageCap then findings
      else findings[..pageCap] + [DegradedFinding(adapter.provider, now, Truncated(pageCap, |findings|))]
  }

  predicate Complete(adapter: Adapter, pageCap: nat) {
    adapter.outcome.Returned? && |adapter.outcome.findings| <= pageCap
  }

  /** The checks of `normalizeFinding`. */
  predicate IsValid(f: Finding) {
    f.id != "" && f.provider in PROVIDERS && f.severity in SEVERITIES && f.status in STATUSES && f.resource != ""
      && f.message != ""
  }

  function Normalize(f: Finding, now: string): Finding {
    f.(observedAt := Some(if f.observedAt.Some? then f.observedAt.value else now),
       evidence := RedactValue(f.evidence, 0, ""))
  }

  /** `out` is `f` normalised at some reading of the clock. */
  predicate IsNormalized(f: Finding, out: Finding) { out.observedAt.Some? && out == Normalize(f, out.observedAt.value) }

  predicate AllNormalized(raw: seq<Finding>, out: seq<Finding>) {
    |raw| == |out| && forall i | 0 <= i < |raw| :: IsNormalized(raw[i], out[i])
  }

  predicate FindingLe(a: Finding, b: Finding) {
    if a.provider != b.provider then LexLe(a.provider, b.provider)
    else if a.id != b.id then LexLe(a.id, b.id)
    else LexLe(a.resource, b.resource)
  }

  function CountStatus(findings: seq<Finding>, status: string): nat {
    if findings == [] then 0
    else CountStatus(findings[..|findings| - 1], status) + if findings[|findings| - 1].status == status then 1 else 0
  }

  function Summarize(findings: seq<Finding>): Summary {
    Summary(|findings|, CountStatus(findings, "pass"), CountStatus(findings, "fail"),
            CountStatus(findings, "degraded"), CountStatus(findings, "skipped"))
  }

  function ExitCode(s: Summary): nat { if s.fail > 0 || s.degraded > 0 || s.total == 0 then 1 else 0 }
}
