// What holds of classifications over time: sequences of calls for one key, with
// no invalidation and no other writer of its cache file.
module ClassifierRuns {
  import opened Wrappers
  import opened Classifier

  // ----- one call

  /** A fresh verdict is `High` exactly on both kinds of direct evidence from working required adapters. */
  lemma HighIff(absence: Absence, call: Call)
    ensures FreshVerdict(absence, call).confidence == High <==>
            AutoOf(call).ok && VersionOf(call).ok && AutoOf(call).detected && TrailOf(call).detected
  {
  }

  /** The confidence of a fresh verdict is a function of its source; churn of the provider is never more than medium. */
  lemma ConfidenceFollowsSource(file: File, call: Call)
    requires Answer(file, call).Ok? && ReadCache(file, call.ttlSeconds, call.readAt).Absent?
    ensures var v := Answer(file, call).value;
            && v.confidence == ConfidenceOf(v.source)
            && (v.source == ProviderApiChurn ==> v.confidence == Medium)
            && (v.confidence == High <==> v.source == Mixed || v.source == ConsoleBreakGlass)
            && (v.source == NoDrift <==> !RequiredFailed(call) && !AutoOf(call).detected)
  {
  }

  /** A failed required adapter leaves the file as it is and answers `Unknown` at most, unless the cache answered. */
  lemma FailedAdapterKeepsCache(file: File, call: Call)
    requires RequiredFailed(call)
    ensures After(file, call) == file
    ensures Answer(file, call).Ok? && ReadCache(file, call.ttlSeconds, call.readAt).Absent? ==>
              Answer(file, call).value.source == Unknown && Answer(file, call).value.confidence == Low
  {
  }

  // ----- runs

  ghost predicate Run(files: seq<File>, calls: seq<Call>) {
    |files| == |calls| + 1 && forall i | 0 <= i < |calls| :: files[i + 1] == After(files[i], calls[i])
  }

  lemma StepRises(file: File, call: Call)
    requires file.Stored?
    ensures After(file, call).Stored?
    ensures Rank(After(file, call).entry.verdict.confidence) >= Rank(file.entry.verdict.confidence)
  {
    hide SourceOf, ConfidenceOf, EvidenceOf, RequiredFailed;
  }

  /** Once the file holds a verdict, it holds one ever after, and its confidence never decreases. */
  lemma {:induction false} ConfidenceNeverDecreases(files: seq<File>, calls: seq<Call>, i: nat, j: nat)
    requires Run(files, calls) && i <= j < |files| && files[i].Stored?
    ensures files[j].Stored? && Rank(files[j].entry.verdict.confidence) >= Rank(files[i].entry.verdict.confidence)
  {
    hide After;
    if i < j {
      ConfidenceNeverDecreases(files, calls, i, j - 1);
      StepRises(files[j - 1], calls[j - 1]);
    }
  }

  /** The cached verdict is the one this call found, and it was worth keeping. */
  predicate RecordedBy(file: File, call: Call, next: File) {
    && Records(file, call) && next.Stored? && next == After(file, call)
    && !RequiredFailed(call) && next.entry.verdict.source == SourceOf(call)
    && next.entry.verdict.confidence == ConfidenceOf(SourceOf(call)) != NoConfidence
  }

  lemma StepRecords(file: File, call: Call)
    ensures After(file, call) == file || RecordedBy(file, call, After(file, call))
  {
    hide SourceOf, ConfidenceOf, EvidenceOf, RequiredFailed;
  }

  /** Every file in a run is the first one or was recorded by some call whose required adapters worked. */
  lemma {:induction false} CachedVerdictsAreRecorded(files: seq<File>, calls: seq<Call>, i: nat) returns (k: int)
    requires Run(files, calls) && i < |files|
    ensures -1 <= k < i
    ensures k < 0 ==> files[i] == files[0]
    ensures k >= 0 ==> RecordedBy(files[k], calls[k], files[k + 1]) && files[i] == files[k + 1]
  {
    hide After, RecordedBy;
    if i == 0 {
      k := -1;
    } else {
      StepRecords(files[i - 1], calls[i - 1]);
      if files[i] == files[i - 1] {
        k := CachedVerdictsAreRecorded(files, calls, i - 1);
      } else {
        k := i - 1;
      }
    }
  }

  predicate HoldsNone(file: File) { file.Stored? && file.entry.verdict.confidence == NoConfidence }

  /** `NoConfidence` is never cached, and `High` only on evidence of both the resource and CloudTrail. */
  lemma NoneIsNeverCached(files: seq<File>, calls: seq<Call>, i: nat)
    requires Run(files, calls) && i < |files| && !HoldsNone(files[0])
    ensures !HoldsNone(files[i])
  {
    var k := CachedVerdictsAreRecorded(files, calls, i);
    hide After, Records;
  }

  lemma HighComesFromEvidence(files: seq<File>, calls: seq<Call>, i: nat) returns (k: nat)
    requires Run(files, calls) && i < |files| && !files[0].Stored?
    requires files[i].Stored? && files[i].entry.verdict.confidence == High
    ensures k < i && AutoOf(calls[k]).ok && VersionOf(calls[k]).ok && AutoOf(calls[k]).detected
            && TrailOf(calls[k]).detected
  {
    k := CachedVerdictsAreRecorded(files, calls, i);
    HighIff(FileMissing, calls[k]);
  }

  // ----- where the guard does not reach

  function QuietCall(ttlSeconds: int, readAt: DateMs, auto: Signal, gitLog: Signal,
                     minConfidence: Option<Confidence>): Call
  {
    Call(true, ttlSeconds, minConfidence, readAt, readAt, readAt, Fulfilled(auto), Fulfilled(Signal(true, false)),
         Fulfilled(Signal(true, false)), Fulfilled(gitLog), None)
  }

  ghost predicate AnswersAtLeast(file: File, call: Call, confidence: Confidence) {
    Answer(file, call).Ok? && Rank(Answer(file, call).value.confidence) >= Rank(confidence)
  }

  /**
   * The guard protects the file, not the answer. For a cached verdict, every call at this time with this time to
   * live answers with at least its confidence exactly when the entry has not expired or claims no confidence.
   */
  lemma AnswersKeepConfidenceIff(file: File, ttlSeconds: int, readAt: DateMs)
    requires file.Stored?
    ensures (forall call: Call | call.windowValid && call.ttlSeconds == ttlSeconds && call.readAt == readAt ::
               AnswersAtLeast(file, call, file.entry.verdict.confidence))
            <==> ReadCache(file, ttlSeconds, readAt).Hit? || file.entry.verdict.confidence == NoConfidence
  {
    var quiet := QuietCall(ttlSeconds, readAt, Signal(true, false), Signal(true, false), None);
    assert SourceOf(quiet) == NoDrift;
    if !ReadCache(file, ttlSeconds, readAt).Hit? && file.entry.verdict.confidence != NoConfidence {
      assert Answer(file, quiet).value.confidence == NoConfidence;
      assert !AnswersAtLeast(file, quiet, file.entry.verdict.confidence);
    }
  }

  /** And whatever a call answers, an answer of less confidence leaves the file as it was. */
  lemma LowerAnswerKeepsFile(file: File, call: Call)
    requires file.Stored? && Answer(file, call).Ok? && !AnswersAtLeast(file, call, file.entry.verdict.confidence)
    ensures After(file, call) == file
  {
  }

  /** The lowest confidence that a call with this threshold records. */
  function LowestRecorded(minConfidence: Option<Confidence>): nat {
    if minConfidence.None? || minConfidence.value == NoConfidence then Rank(Low) else Rank(minConfidence.value)
  }

  ghost predicate KeepsOrRaises(found: Entry, call: Call) {
    var file := OtherSchema(Some(found));
    || After(file, call) == file
    || (After(file, call).Stored? && Rank(After(file, call).entry.verdict.confidence) >= Rank(found.verdict.confidence))
  }

  /** A file of another schema is not migrated: it is replaced, backup or not, exactly by a verdict worth keeping. */
  lemma OtherSchemaIsReplacedIff(found: Option<Entry>, call: Call)
    ensures After(OtherSchema(found), call) != OtherSchema(found) <==>
            && call.windowValid && !RequiredFailed(call)
            && Rank(ConfidenceOf(SourceOf(call))) >= LowestRecorded(call.minConfidence)
  {
    hide SourceOf, EvidenceOf, RequiredFailed;
  }

  /**
   * The guard does not reach across schemas. No call with this threshold lowers the confidence that a file of
   * another schema holds exactly when that confidence is no higher than the threshold lets through.
   */
  lemma SchemaGuardIff(found: Entry, minConfidence: Option<Confidence>)
    ensures (forall call: Call | call.minConfidence == minConfidence :: KeepsOrRaises(found, call))
            <==> Rank(found.verdict.confidence) <= LowestRecorded(minConfidence)
  {
    if Rank(found.verdict.confidence) > LowestRecorded(minConfidence) {
      var git := Signal(true, LowestRecorded(minConfidence) == Rank(Medium));
      var call := QuietCall(0, 0, Signal(true, true), git, minConfidence);
      assert SourceOf(call) == if git.detected then GenuineIacDrift else Unknown;
      assert !KeepsOrRaises(found, call);
    }
    if Rank(found.verdict.confidence) <= LowestRecorded(minConfidence) {
      forall call: Call | call.minConfidence == minConfidence ensures KeepsOrRaises(found, call) {
        OtherSchemaIsReplacedIff(Some(found), call);
      }
    }
  }

  /** A verdict of high confidence, of version 1, replaced by one of low confidence. */
  lemma HighVerdictIsReplaced(found: Entry)
    requires found.verdict.confidence == High
    ensures var call := QuietCall(0, 0, Signal(true, true), Signal(true, false), None);
            && After(OtherSchema(Some(found)), call).Stored?
            && After(OtherSchema(Some(found)), call).entry.verdict.confidence == Low
  {
    var call := QuietCall(0, 0, Signal(true, true), Signal(true, false), None);
    assert SourceOf(call) == Unknown;
  }
}
