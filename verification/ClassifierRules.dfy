// packages/drift/src/classifier.ts and readCache of cache.ts: what is answered and
// kept, in terms of the adapters' results, the probe and the times.
module ClassifierRules {
  import opened Wrappers
  import opened Classifier

  // ----- the cache as a rate limit

  /** A stored entry answers as long as its age is within the time to live, or its date cannot be read. */
  lemma AnswersIff(file: File, ttlSeconds: int, now: DateMs)
    ensures ReadCache(file, ttlSeconds, now).Hit? <==>
            file.Stored? && forall w | file.entry.writtenAt == Some(w) :: now <= w + 1000 * ttlSeconds
    ensures ReadCache(file, ttlSeconds, now).Hit? ==> ReadCache(file, ttlSeconds, now).entry == file.entry
    ensures ReadCache(file, ttlSeconds, now).Throws? <==> file.NullText?
  {
    if file.Stored? && file.entry.writtenAt.Some? {
      assert file.entry.writtenAt == Some(file.entry.writtenAt.value);
    }
  }

  lemma AbsentIff(file: File, ttlSeconds: int, now: DateMs, reason: Absence)
    ensures ReadCache(file, ttlSeconds, now) == Absent(reason) <==>
            match reason
            case FileMissing => file.Missing?
            case OwnershipMismatch => file.OtherOwner?
            case ParseError => file.Unparsable?
            case SchemaMismatch => file.OtherSchema?
            case Expired => file.Stored? && exists w :: file.entry.writtenAt == Some(w) && w + 1000 * ttlSeconds < now
  {
  }

  /** An entry that has expired does not answer again later, and one that answers answered at every earlier time. */
  lemma ExpiredStaysExpired(file: File, ttlSeconds: int, now: DateMs, later: DateMs)
    requires now <= later && ReadCache(file, ttlSeconds, later).Hit?
    ensures ReadCache(file, ttlSeconds, now) == ReadCache(file, ttlSeconds, later)
  {
  }

  /**
   * After a call that records its verdict, the next one gets that verdict and changes nothing, whatever the adapters
   * would say, exactly as long as the entry has not outlived its time.
   */
  lemma RecordedAnswersIff(file: File, call: Call, next: Call)
    requires Records(file, call) && next.windowValid
    ensures var verdict := Answer(file, call).value;
            ReadCache(After(file, call), next.ttlSeconds, next.readAt).Hit? <==>
            next.readAt <= call.startedAt + 1000 * next.ttlSeconds
    ensures next.readAt <= call.startedAt + 1000 * next.ttlSeconds ==>
              Answer(After(file, call), next) == Answer(file, call)
                && After(After(file, call), next) == After(file, call)
  {
    hide FreshVerdict, RequiredFailed, SourceOf, ConfidenceOf, MeetsMinConfidence;
    AnswersIff(After(file, call), next.ttlSeconds, next.readAt);
  }

  // ----- the verdict of the adapters

  predicate Works(s: Settled) { s.Fulfilled? && s.signal.ok }

  predicate Detects(s: Settled) { s.Fulfilled? && s.signal.detected }

  /** Both required adapters work, and the change was seen. */
  predicate IsChanged(call: Call) {
    Works(call.automationApi) && Works(call.providerVersion) && Detects(call.automationApi)
  }

  /** An event may still be on its way. */
  predicate IsPending(call: Call) {
    match call.probe
    case Some(probe) => probe.inTransit && !probe.delivered
    case None => false
  }

  lemma SourceIff(call: Call, source: Source)
    ensures SourceOf(call) == source <==>
            match source
            case NoDrift => Works(call.automationApi) && Works(call.providerVersion) && !Detects(call.automationApi)
            case Mixed => IsChanged(call) && Detects(call.cloudTrail) && Detects(call.providerVersion)
            case ConsoleBreakGlass => IsChanged(call) && Detects(call.cloudTrail) && !Detects(call.providerVersion)
            case ProviderApiChurn =>
              IsChanged(call) && !Detects(call.cloudTrail) && Detects(call.providerVersion) && !IsPending(call)
            case GenuineIacDrift =>
              && IsChanged(call) && !Detects(call.cloudTrail) && Detects(call.gitLog)
              && (Detects(call.providerVersion) ==> IsPending(call))
            case Unknown =>
              || !Works(call.automationApi) || !Works(call.providerVersion)
              || (Detects(call.automationApi) && !Detects(call.cloudTrail) && !Detects(call.gitLog)
                  && (Detects(call.providerVersion) ==> IsPending(call)))
  {
  }

  lemma ConfidenceIff(source: Source, confidence: Confidence)
    ensures ConfidenceOf(source) == confidence <==>
            source in match confidence
                      case NoConfidence => {NoDrift}
                      case Low => {Unknown}
                      case Medium => {ProviderApiChurn, GenuineIacDrift}
                      case High => {ConsoleBreakGlass, Mixed}
  {
  }

  /** The item of an adapter: what it detected, or that it found nothing, or that it did not work. */
  ghost predicate Shows(item: EvidenceItem, adapter: string, s: Settled) {
    && item.adapter == adapter
    && (Detects(s) ==> item.kind == "detected")
    && (Works(s) && !Detects(s) ==> item.kind == "clean")
    && (!Works(s) && !Detects(s) ==> item.kind == "degraded")
  }

  function NameOf(reason: Absence): string {
    match reason
    case FileMissing => "missing"
    case Expired => "expired"
    case OwnershipMismatch => "ownership-mismatch"
    case SchemaMismatch => "schema-mismatch"
    case ParseError => "parse-error"
  }

  /** The evidence: why the cache did not answer unless there was no file, the four adapters, a probe that failed. */
  lemma EvidenceIs(absence: Absence, call: Call) returns (reason: seq<EvidenceItem>, probe: seq<EvidenceItem>)
    ensures |EvidenceOf(absence, call)| == |reason| + 4 + |probe|
    ensures reason == (if absence == FileMissing then [] else [EvidenceItem("Cache", NameOf(absence))])
    ensures probe == (if call.probe.Some? then [] else [EvidenceItem("Probe", "probeFailedAt")])
    ensures EvidenceOf(absence, call)[..|reason|] == reason && EvidenceOf(absence, call)[|reason| + 4..] == probe
    ensures var found := EvidenceOf(absence, call)[|reason|..|reason| + 4];
            && Shows(found[0], "AutomationApi", call.automationApi) && Shows(found[1], "CloudTrail", call.cloudTrail)
            && Shows(found[2], "ProviderVersion", call.providerVersion) && Shows(found[3], "GitLog", call.gitLog)
  {
    Names(absence);
    ShownBy("AutomationApi", call.automationApi);
    ShownBy("CloudTrail", call.cloudTrail);
    ShownBy("ProviderVersion", call.providerVersion);
    ShownBy("GitLog", call.gitLog);
    hide AbsenceName, NameOf, SignalEvidence, Shows;
    reason := if absence == FileMissing then [] else [EvidenceItem("Cache", NameOf(absence))];
    probe := if call.probe.Some? then [] else [EvidenceItem("Probe", "probeFailedAt")];
    var found := [SignalEvidence("AutomationApi", AutoOf(call)), SignalEvidence("CloudTrail", TrailOf(call)),
                  SignalEvidence("ProviderVersion", VersionOf(call)), SignalEvidence("GitLog", GitOf(call))];
    assert EvidenceOf(absence, call) == reason + found + probe;
    assert (reason + found + probe)[|reason|..|reason| + 4] == found;
  }

  lemma Names(absence: Absence)
    ensures AbsenceName(absence) == NameOf(absence)
  {
  }

  lemma ShownBy(adapter: string, s: Settled)
    ensures Shows(SignalEvidence(adapter, Unwrap(s)), adapter, s)
  {
  }

  // ----- what is kept

  /** The order of confidences, written out. */
  predicate AtMost(c: Confidence, d: Confidence) {
    match c
    case NoConfidence => true
    case Low => d != NoConfidence
    case Medium => d == Medium || d == High
    case High => d == High
  }

  lemma RankIff(c: Confidence, d: Confidence)
    ensures Rank(c) <= Rank(d) <==> AtMost(c, d)
  {
  }

  /**
   * A verdict is recorded exactly when the cache did not answer, both required adapters worked, there is drift, the
   * confidence reaches the caller's threshold, and no stored verdict has more.
   */
  lemma RecordsIff(file: File, call: Call)
    ensures Records(file, call) <==>
            && call.windowValid && !file.NullText?
            && (file.Stored? ==>
                exists w :: file.entry.writtenAt == Some(w) && w + 1000 * call.ttlSeconds < call.readAt)
            && IsChanged(call)
            && (call.minConfidence.Some? ==> AtMost(call.minConfidence.value, ConfidenceOf(SourceOf(call))))
            && (file.Stored? ==> AtMost(file.entry.verdict.confidence, ConfidenceOf(SourceOf(call))))
  {
    RankIff(NoConfidence, ConfidenceOf(SourceOf(call)));
    hide SourceOf, ConfidenceOf;
    SourceIff(call, NoDrift);
    ConfidenceIff(SourceOf(call), NoConfidence);
  }
}
