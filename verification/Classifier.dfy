// packages/drift/src/classifier.ts, verdict.ts, monotonicity.ts and readCache of
// cache.ts: one classification against the cache file of its key.
module Classifier {
  import opened Wrappers

  datatype Source = NoDrift | ProviderApiChurn | ConsoleBreakGlass | GenuineIacDrift | Mixed | Unknown

  datatype Confidence = NoConfidence | Low | Medium | High

  /** What an adapter call comes to; a rejected call is neither ok nor a detection. */
  datatype Signal = Signal(ok: bool, detected: bool)

  datatype Settled = Fulfilled(signal: Signal) | Rejected

  datatype Probe = Probe(inTransit: bool, delivered: bool)

  datatype EvidenceItem = EvidenceItem(adapter: string, kind: string)

  datatype Verdict = Verdict(source: Source, confidence: Confidence, evidence: seq<EvidenceItem>)

  const MAX_DATE_MS := 8640000000000000

  /** The instants a JavaScript `Date` can hold. */
  type DateMs = x: int | -MAX_DATE_MS <= x <= MAX_DATE_MS

  /** `writtenAt` is `None` when the stored text is no date. */
  datatype Entry = Entry(writtenAt: Option<DateMs>, verdict: Verdict)

  /**
   * What reading and parsing the cache file comes to. `NullText` is the one JSON value whose member access throws.
   * A file of another schema may hold an entry too.
   */
  datatype File =
    | Missing | OtherOwner | Unparsable | NullText
    | OtherSchema(found: Option<Entry>)
    | Stored(entry: Entry)

  datatype Absence = FileMissing | Expired | OwnershipMismatch | SchemaMismatch | ParseError

  datatype ReadResult = Hit(entry: Entry) | Absent(reason: Absence) | Throws

  datatype Call = Call(
    windowValid: bool, ttlSeconds: int, minConfidence: Option<Confidence>, readAt: DateMs, startedAt: DateMs,
    rereadAt: DateMs,
    automationApi: Settled, cloudTrail: Settled, providerVersion: Settled, gitLog: Settled, probe: Option<Probe>)

  datatype ClassifyError = InvalidWindow | BrokenCache

  const MAX_SAFE_INTEGER := 9007199254740991

  // ----- the pieces

  function Rank(c: Confidence): nat {
    match c
    case NoConfidence => 0
    case Low => 1
    case Medium => 2
    case High => 3
  }

  function HardenedVerdict(mutated: bool, inTransit: bool, delivered: bool, providerDrift: bool): (Source, Confidence) {
    if !mutated then (NoDrift, NoConfidence)
    else if delivered && providerDrift then (Mixed, High)
    else if delivered then (ConsoleBreakGlass, High)
    else if inTransit then (Unknown, Low)
    else if providerDrift then (ProviderApiChurn, Medium)
    else (Unknown, Low)
  }

  predicate AllowsWrite(existing: Option<Verdict>, incoming: Verdict) {
    existing.None? || Rank(incoming.confidence) >= Rank(existing.value.confidence)
  }

  predicate MeetsMinConfidence(actual: Confidence, threshold: Option<Confidence>) {
    Rank(actual) > Rank(NoConfidence) && (threshold.None? || Rank(actual) >= Rank(threshold.value))
  }

  function Unwrap(s: Settled): Signal {
    match s
    case Fulfilled(signal) => signal
    case Rejected => Signal(false, false)
  }

  /** An age that is no number is not greater than any limit, so an unreadable date never expires. */
  function ReadCache(file: File, ttlSeconds: int, now: DateMs): ReadResult {
    match file
    case Missing => Absent(FileMissing)
    case OtherOwner => Absent(OwnershipMismatch)
    case Unparsable => Absent(ParseError)
    case NullText => Throws
    case OtherSchema(_) => Absent(SchemaMismatch)
    case Stored(entry) =>
      if entry.writtenAt.Some? && now - entry.writtenAt.value > ttlSeconds * 1000 then Absent(Expired) else Hit(entry)
  }

  function AbsenceName(a: Absence): string {
    match a
    case FileMissing => "missing"
    case Expired => "expired"
    case OwnershipMismatch => "ownership-mismatch"
    case SchemaMismatch => "schema-mismatch"
    case ParseError => "parse-error"
  }

  function SignalEvidence(adapter: string, s: Signal): EvidenceItem {
    EvidenceItem(adapter, if s.detected then "detected" else if s.ok then "clean" else "degraded")
  }

  // ----- what a call decides, as tables

  function AutoOf(call: Call): Signal { Unwrap(call.automationApi) }
  function TrailOf(call: Call): Signal { Unwrap(call.cloudTrail) }
  function VersionOf(call: Call): Signal { Unwrap(call.providerVersion) }
  function GitOf(call: Call): Signal { Unwrap(call.gitLog) }

  predicate RequiredFailed(call: Call) { !AutoOf(call).ok || !VersionOf(call).ok }

  /** The source of a fresh verdict; the probe matters only for telling churn from an event still in transit. */
  function SourceOf(call: Call): Source {
    var mutated, drift := AutoOf(call).detected, VersionOf(call).detected;
    var pending := call.probe.Some? && call.probe.value.inTransit && !call.probe.value.delivered;
    if RequiredFailed(call) then Unknown
    else if !mutated then NoDrift
    else if TrailOf(call).detected then if drift then Mixed else ConsoleBreakGlass
    else if drift && !pending then ProviderApiChurn
    else if GitOf(call).detected then GenuineIacDrift
    else Unknown
  }

  function ConfidenceOf(source: Source): Confidence {
    match source
    case NoDrift => NoConfidence
    case ProviderApiChurn => Medium
    case ConsoleBreakGlass => High
    case GenuineIacDrift => Medium
    case Mixed => High
    case Unknown => Low
  }

  function EvidenceOf(absence: Absence, call: Call): seq<EvidenceItem> {
    (if absence == FileMissing then [] else [EvidenceItem("Cache", AbsenceName(absence))])
    + [SignalEvidence("AutomationApi", AutoOf(call)), SignalEvidence("CloudTrail", TrailOf(call)),
       SignalEvidence("ProviderVersion", VersionOf(call)), SignalEvidence("GitLog", GitOf(call))]
    + if call.probe.None? then [EvidenceItem("Probe", "probeFailedAt")] else []
  }

  function FreshVerdict(absence: Absence, call: Call): Verdict {
    Verdict(SourceOf(call), ConfidenceOf(SourceOf(call)), EvidenceOf(absence, call))
  }

  /** What the caller gets. */
  function Answer(file: File, call: Call): Result<Verdict, ClassifyError> {
    if !call.windowValid then Err(InvalidWindow)
    else
      match ReadCache(file, call.ttlSeconds, call.readAt)
      case Throws => Err(BrokenCache)
      case Hit(entry) => Ok(entry.verdict)
      case Absent(reason) => Ok(FreshVerdict(reason, call))
  }

  /** The call ran its adapters, trusts them, and finds a verdict worth keeping. */
  predicate Records(file: File, call: Call) {
    && call.windowValid && ReadCache(file, call.ttlSeconds, call.readAt).Absent? && !RequiredFailed(call)
    && MeetsMinConfidence(ConfidenceOf(SourceOf(call)), call.minConfidence)
    && (file.Stored? ==> Rank(ConfidenceOf(SourceOf(call))) >= Rank(file.entry.verdict.confidence))
  }

  /** The cache file after the call. */
  function After(file: File, call: Call): File {
    if !Records(file, call) then file
    else Stored(Entry(Some(call.startedAt), FreshVerdict(ReadCache(file, call.ttlSeconds, call.readAt).reason, call)))
  }

  // ----- the call itself

  class CacheFile {
    var file: File
  }

  /** Reading with the largest safe integer as the time to live never finds an entry expired. */
  lemma NeverExpires(file: File, now: DateMs)
    ensures ReadCache(file, MAX_SAFE_INTEGER, now) ==
            match file
            case Missing => Absent(FileMissing)
            case OtherOwner => Absent(OwnershipMismatch)
            case Unparsable => Absent(ParseError)
            case NullText => Throws
            case OtherSchema(_) => Absent(SchemaMismatch)
            case Stored(entry) => Hit(entry)
  {
  }

  /** The evidence of one run of the adapters and the probe, in the order it is pushed. */
  method CollectEvidence(absence: Absence, call: Call) returns (evidence: seq<EvidenceItem>)
    ensures evidence == EvidenceOf(absence, call)
  {
    evidence := [];
    if absence != FileMissing {
      evidence := evidence + [EvidenceItem("Cache", AbsenceName(absence))];
    }
    ghost var start := evidence;
    evidence := evidence + [SignalEvidence("AutomationApi", AutoOf(call))];
    evidence := evidence + [SignalEvidence("CloudTrail", TrailOf(call))];
    evidence := evidence + [SignalEvidence("ProviderVersion", VersionOf(call))];
    evidence := evidence + [SignalEvidence("GitLog", GitOf(call))];
    if call.probe.None? {
      evidence := evidence + [EvidenceItem("Probe", "probeFailedAt")];
    }
  }

  /** The verdict matrix and its three corrections. */
  method Decide(call: Call) returns (source: Source, confidence: Confidence)
    requires !RequiredFailed(call)
    ensures source == SourceOf(call) && confidence == ConfidenceOf(source)
  {
    var mutated, providerDrift := AutoOf(call).detected, VersionOf(call).detected;
    var inTransit := call.probe.Some? && call.probe.value.inTransit;
    var delivered := call.probe.Some? && call.probe.value.delivered;
    var matrix := HardenedVerdict(mutated, inTransit, delivered, providerDrift);
    source, confidence := matrix.0, matrix.1;
    if mutated && TrailOf(call).detected {
      source, confidence := if providerDrift then Mixed else ConsoleBreakGlass, High;
    } else if (source == Mixed || source == ConsoleBreakGlass) && !TrailOf(call).detected {
      if providerDrift {
        source, confidence := ProviderApiChurn, Medium;
      } else {
        source, confidence := Unknown, Low;
      }
    }
    if mutated && GitOf(call).detected && source == Unknown {
      source, confidence := GenuineIacDrift, Medium;
    }
  }

  method Classify(cache: CacheFile, call: Call) returns (r: Result<Verdict, ClassifyError>)
    modifies cache
    ensures r == Answer(old(cache.file), call)
    ensures cache.file == After(old(cache.file), call)
  {
    hide SourceOf, ConfidenceOf, EvidenceOf;
    if !call.windowValid {
      return Err(InvalidWindow);
    }
    var cached := ReadCache(cache.file, call.ttlSeconds, call.readAt);
    if cached.Throws? {
      return Err(BrokenCache);
    }
    if cached.Hit? {
      return Ok(cached.entry.verdict);
    }
    var evidence := CollectEvidence(cached.reason, call);
    if RequiredFailed(call) {
      FailedMeansUnknown(call);
      return Ok(Verdict(Unknown, Low, evidence));
    }
    var source, confidence := Decide(call);
    var verdict := Verdict(source, confidence, evidence);
    if !MeetsMinConfidence(confidence, call.minConfidence) {
      return Ok(verdict);
    }
    NeverExpires(cache.file, call.rereadAt);
    var existing := ReadCache(cache.file, MAX_SAFE_INTEGER, call.rereadAt);
    if AllowsWrite(if existing.Hit? then Some(existing.entry.verdict) else None, verdict) {
      cache.file := Stored(Entry(Some(call.startedAt), verdict));
    }
    r := Ok(verdict);
  }

  lemma FailedMeansUnknown(call: Call)
    requires RequiredFailed(call)
    ensures SourceOf(call) == Unknown && ConfidenceOf(SourceOf(call)) == Low
  {
  }
}
