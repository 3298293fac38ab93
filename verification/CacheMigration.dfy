// packages/drift/src/cache.ts: migrateV1ToV2 and writeCache as steps on two
// files, with a crash possible after every step. `fs.open(path, "w")` truncates
// in place, so a file can be left empty or half written.
module CacheMigration {
  import opened Wrappers

  datatype Envelope<V> = Envelope(schemaVersion: int, writtenAt: string, verdict: V)

  /** `JSON.parse` and `JSON.stringify` of envelopes; `parse` is `None` on text that is no envelope. */
  datatype Format<!V> = Format(parse: string -> Option<Envelope<V>>, render: Envelope<V> -> string)

  /** What is used of JSON: printed envelopes are read back, and a strict prefix of one is not read at all. */
  ghost predicate Sound<V(!new)>(format: Format<V>) {
    && (forall e :: format.parse(format.render(e)) == Some(e))
    && (forall e, k: nat | k < |format.render(e)| :: format.parse(format.render(e)[..k]) == None)
  }

  datatype Files = Files(cache: Option<string>, backup: Option<string>)

  /** Where the migration stands; between attempts it is `Idle`. The texts are those it holds in memory. */
  datatype Phase =
    | Idle
    | Parsed(raw: string)
    | WritingBackup(raw: string, written: nat)
    | BackupDone(raw: string)
    | WritingCache(text: string, written: nat)

  datatype State = State(files: Files, phase: Phase)

  datatype Step = Begin | Advance | Crash

  function MigratedText<V>(format: Format<V>, raw: string): string
    requires format.parse(raw).Some?
  {
    format.render(format.parse(raw).value.(schemaVersion := 2))
  }

  /** The migration refuses to start on a file it cannot read, cannot parse, or that is not of version 1. */
  predicate CanBegin<V>(format: Format<V>, files: Files) {
    files.cache.Some? && format.parse(files.cache.value).Some?
      && format.parse(files.cache.value).value.schemaVersion == 1
  }

  predicate Next<V>(format: Format<V>, s: State, t: State, step: Step) {
    match step
    case Crash => t == State(s.files, Idle)
    case Begin => s.phase.Idle? && CanBegin(format, s.files) && t == State(s.files, Parsed(s.files.cache.value))
    case Advance =>
      match s.phase
      case Idle => false
      case Parsed(raw) => t == State(s.files.(backup := Some("")), WritingBackup(raw, 0))
      case WritingBackup(raw, n) =>
        if n < |raw| then t == State(s.files.(backup := Some(raw[..n + 1])), WritingBackup(raw, n + 1))
        else t == State(s.files, BackupDone(raw))
      case BackupDone(raw) =>
        format.parse(raw).Some? && t == State(s.files.(cache := Some("")), WritingCache(MigratedText(format, raw), 0))
      case WritingCache(text, n) =>
        if n < |text| then t == State(s.files.(cache := Some(text[..n + 1])), WritingCache(text, n + 1))
        else t == State(s.files, Idle)
  }

  ghost predicate Run<V>(format: Format<V>, states: seq<State>, steps: seq<Step>) {
    |states| == |steps| + 1 && forall i | 0 <= i < |steps| :: Next(format, states[i], states[i + 1], steps[i])
  }

  /** The original text is the cache, or it is the backup and the cache is some beginning of the migrated text. */
  ghost predicate Recoverable<V>(format: Format<V>, v1: string, files: Files)
    requires format.parse(v1).Some?
  {
    || files.cache == Some(v1)
    || (files.backup == Some(v1) && files.cache.Some? && files.cache.value <= MigratedText(format, v1))
  }

  ghost predicate Invariant<V>(format: Format<V>, v1: string, s: State)
    requires format.parse(v1).Some?
  {
    && Recoverable(format, v1, s.files)
    && match s.phase
       case Idle => true
       case Parsed(raw) => raw == v1 && s.files.cache == Some(v1)
       case WritingBackup(raw, n) =>
         raw == v1 && s.files.cache == Some(v1) && n <= |raw| && s.files.backup == Some(raw[..n])
       case BackupDone(raw) => raw == v1 && s.files.cache == Some(v1) && s.files.backup == Some(v1)
       case WritingCache(text, n) =>
         text == MigratedText(format, v1) && s.files.backup == Some(v1) && n <= |text|
           && s.files.cache == Some(text[..n])
  }

  /** A beginning of the migrated text is not mistaken for a file of version 1. */
  lemma PrefixCannotBegin<V(!new)>(format: Format<V>, v1: string, files: Files)
    requires Sound(format) && format.parse(v1).Some?
    requires files.cache.Some? && files.cache.value <= MigratedText(format, v1)
    ensures !CanBegin(format, files)
  {
    var e := format.parse(v1).value.(schemaVersion := 2);
    var k := |files.cache.value|;
    assert files.cache.value == format.render(e)[..k];
    if k == |format.render(e)| {
      assert files.cache.value == format.render(e);
    }
  }

  lemma StepKeepsInvariant<V(!new)>(format: Format<V>, v1: string, s: State, t: State, step: Step)
    requires Sound(format) && format.parse(v1).Some?
    requires Invariant(format, v1, s) && Next(format, s, t, step)
    ensures Invariant(format, v1, t)
  {
    match step
    case Crash =>
    case Begin =>
      if s.files.cache != Some(v1) {
        PrefixCannotBegin(format, v1, s.files);
      }
    case Advance =>
      hide Sound;
      match s.phase
      case WritingBackup(raw, n) => assert raw[..|raw|] == raw;
      case _ =>
  }

  /**
   * In every state that any number of migration attempts reaches, each of them cut off after any step,
   * the original text is still in the cache file or in the backup.
   */
  lemma {:induction false} OriginalSurvives<V(!new)>(format: Format<V>, v1: string, states: seq<State>,
                                                     steps: seq<Step>, i: nat)
    requires Sound(format) && format.parse(v1).Some?
    requires Run(format, states, steps) && i < |states|
    requires states[0].phase.Idle? && states[0].files.cache == Some(v1)
    ensures Invariant(format, v1, states[i])
    ensures states[i].files.cache == Some(v1) || states[i].files.backup == Some(v1)
  {
    if i > 0 {
      OriginalSurvives(format, v1, states, steps, i - 1);
      StepKeepsInvariant(format, v1, states[i - 1], states[i], steps[i - 1]);
    }
  }

  // ----- an attempt that is not cut off

  /** The states an attempt goes through from here on, without a crash. */
  function Completed<V>(format: Format<V>, s: State): Files
    requires s.phase.Parsed? && format.parse(s.phase.raw).Some?
  {
    Files(Some(MigratedText(format, s.phase.raw)), Some(s.phase.raw))
  }

  /** After a complete attempt the cache reads as version 2 with the same date and verdict, and migrates no more. */
  lemma CompletedAttempt<V(!new)>(format: Format<V>, s: State)
    requires Sound(format) && s.phase.Parsed? && format.parse(s.phase.raw).Some?
    ensures var done := Completed(format, s);
            && format.parse(done.cache.value) == Some(format.parse(s.phase.raw).value.(schemaVersion := 2))
            && !CanBegin(format, done) && done.backup == Some(s.phase.raw)
  {
  }

  /** Counted steps to the end of an attempt. */
  function Remaining<V>(format: Format<V>, s: State): nat {
    match s.phase
    case Idle => 0
    case Parsed(raw) => 3 + |raw| + (if format.parse(raw).Some? then |MigratedText(format, raw)| else 0) + 1
    case WritingBackup(raw, n) =>
      (if n <= |raw| then 2 + |raw| - n else 0) + (if format.parse(raw).Some? then |MigratedText(format, raw)| else 0)
        + 1
    case BackupDone(raw) => 1 + (if format.parse(raw).Some? then |MigratedText(format, raw)| else 0) + 1
    case WritingCache(text, n) => if n <= |text| then |text| - n + 1 else 0
  }

  /** An attempt that is left alone ends in the completed files. */
  lemma {:induction false} AttemptCompletes<V(!new)>(format: Format<V>, v1: string, s: State)
    returns (states: seq<State>, steps: seq<Step>)
    requires format.parse(v1).Some? && Invariant(format, v1, s) && !s.phase.Idle?
    ensures Run(format, states, steps) && states[0] == s && forall i | 0 <= i < |steps| :: steps[i] == Advance
    ensures states[|steps|].phase.Idle? && states[|steps|].files == Files(Some(MigratedText(format, v1)), Some(v1))
    decreases Remaining(format, s)
  {
    var t := AdvanceOnce(format, v1, s);
    if t.phase.Idle? {
      states, steps := [s, t], [Advance];
    } else {
      states, steps := AttemptCompletes(format, v1, t);
      RunCons(format, s, states, steps, Advance);
      states, steps := [s] + states, [Advance] + steps;
    }
  }

  lemma AdvanceOnce<V(!new)>(format: Format<V>, v1: string, s: State) returns (t: State)
    requires format.parse(v1).Some? && Invariant(format, v1, s) && !s.phase.Idle?
    ensures Next(format, s, t, Advance) && Invariant(format, v1, t)
    ensures t.phase.Idle? ==> t.files == Files(Some(MigratedText(format, v1)), Some(v1))
    ensures Remaining(format, t) < Remaining(format, s)
  {
    match s.phase
    case Parsed(raw) => t := State(s.files.(backup := Some("")), WritingBackup(raw, 0));
    case WritingBackup(raw, n) =>
      assert raw[..|raw|] == raw;
      t := if n < |raw| then State(s.files.(backup := Some(raw[..n + 1])), WritingBackup(raw, n + 1))
        else State(s.files, BackupDone(raw));
    case BackupDone(raw) => t := State(s.files.(cache := Some("")), WritingCache(MigratedText(format, raw), 0));
    case WritingCache(text, n) =>
      assert text[..|text|] == text;
      t := if n < |text| then State(s.files.(cache := Some(text[..n + 1])), WritingCache(text, n + 1))
        else State(s.files, Idle);
  }

  lemma RunCons<V>(format: Format<V>, s: State, states: seq<State>, steps: seq<Step>, step: Step)
    requires Run(format, states, steps) && Next(format, s, states[0], step)
    ensures Run(format, [s] + states, [step] + steps)
  {
    hide Next;
    var longer, more := [s] + states, [step] + steps;
    forall i | 0 <= i < |more| ensures Next(format, longer[i], longer[i + 1], more[i]) {
      if i > 0 {
        assert longer[i] == states[i - 1] && longer[i + 1] == states[i] && more[i] == steps[i - 1];
      }
    }
  }

  // ----- the write of the cache is not atomic

  /** The cache has been opened for writing and the text is not all there yet. */
  predicate MidWrite(s: State) { s.phase.WritingCache? && s.phase.written < |s.phase.text| }

  /** Some write of the cache was cut off before. */
  predicate CutOffBefore(states: seq<State>, steps: seq<Step>, i: nat)
    requires |states| == |steps| + 1 && i <= |steps|
  {
    exists j | 0 <= j < i :: steps[j].Crash? && MidWrite(states[j])
  }

  ghost predicate OldOrNew<V>(format: Format<V>, v1: string, files: Files)
    requires format.parse(v1).Some?
  {
    files.cache == Some(v1) || files.cache == Some(MigratedText(format, v1))
  }

  /** A strict beginning of the migrated text is neither the original nor the migrated text. */
  lemma TornIsNeither<V(!new)>(format: Format<V>, v1: string, torn: string)
    requires Sound(format) && format.parse(v1).Some?
    requires torn <= MigratedText(format, v1) && |torn| < |MigratedText(format, v1)|
    ensures torn != v1 && torn != MigratedText(format, v1)
  {
    var e := format.parse(v1).value.(schemaVersion := 2);
    assert torn == format.render(e)[..|torn|];
  }

  /** The cache is some strict beginning of the migrated text; nothing can start on it any more. */
  ghost predicate Torn<V>(format: Format<V>, v1: string, files: Files)
    requires format.parse(v1).Some?
  {
    files.cache.Some? && files.cache.value <= MigratedText(format, v1)
      && |files.cache.value| < |MigratedText(format, v1)|
  }

  lemma MidWriteIsTorn<V>(format: Format<V>, v1: string, s: State)
    requires format.parse(v1).Some? && Invariant(format, v1, s) && MidWrite(s)
    ensures Torn(format, v1, s.files)
  {
  }

  /** A step changes whole to torn, or back, only by being in the middle of a write. */
  lemma StepTears<V(!new)>(format: Format<V>, v1: string, s: State, t: State, step: Step)
    requires Sound(format) && format.parse(v1).Some?
    requires Invariant(format, v1, s) && Next(format, s, t, step)
    requires MidWrite(s) || OldOrNew(format, v1, s.files) || (Torn(format, v1, s.files) && s.phase.Idle?)
    ensures MidWrite(t) || OldOrNew(format, v1, t.files) || (Torn(format, v1, t.files) && t.phase.Idle?)
    ensures step.Crash? && MidWrite(s) ==> Torn(format, v1, t.files) && t.phase.Idle?
    ensures s.phase.Idle? && Torn(format, v1, s.files) ==> t == s
    ensures !(step.Crash? && MidWrite(s)) && !(Torn(format, v1, s.files) && s.phase.Idle?) && !MidWrite(t) ==>
            OldOrNew(format, v1, t.files)
  {
    if s.phase.Idle? && Torn(format, v1, s.files) {
      PrefixCannotBegin(format, v1, s.files);
    } else if MidWrite(s) {
      MidWriteIsTorn(format, v1, s);
      if step.Advance? {
        var text, n := s.phase.text, s.phase.written;
        assert text[..|text|] == text;
      }
    }
  }

  lemma CutOffNext(states: seq<State>, steps: seq<Step>, i: nat)
    requires |states| == |steps| + 1 && 0 < i <= |steps|
    ensures CutOffBefore(states, steps, i) <==>
            CutOffBefore(states, steps, i - 1) || (steps[i - 1].Crash? && MidWrite(states[i - 1]))
  {
    hide MidWrite;
  }

  lemma {:induction false} WholeUnlessCutOff<V(!new)>(format: Format<V>, v1: string, states: seq<State>,
                                                      steps: seq<Step>, i: nat)
    requires Sound(format) && format.parse(v1).Some?
    requires Run(format, states, steps) && i < |states|
    requires states[0].phase.Idle? && states[0].files.cache == Some(v1)
    ensures Invariant(format, v1, states[i])
    ensures CutOffBefore(states, steps, i) ==> Torn(format, v1, states[i].files) && states[i].phase.Idle?
    ensures !CutOffBefore(states, steps, i) ==> MidWrite(states[i]) || OldOrNew(format, v1, states[i].files)
  {
    OriginalSurvives(format, v1, states, steps, i);
    if i > 0 {
      hide Invariant, Next, OldOrNew, MidWrite, Torn, Sound;
      WholeUnlessCutOff(format, v1, states, steps, i - 1);
      StepTears(format, v1, states[i - 1], states[i], steps[i - 1]);
      CutOffNext(states, steps, i);
    }
  }

  /**
   * In every reachable state the cache holds the original or the migrated text exactly when no write of it was
   * cut off and none is going on.
   */
  lemma CacheIsWholeIff<V(!new)>(format: Format<V>, v1: string, states: seq<State>, steps: seq<Step>, i: nat)
    requires Sound(format) && format.parse(v1).Some?
    requires Run(format, states, steps) && i < |states|
    requires states[0].phase.Idle? && states[0].files.cache == Some(v1)
    ensures OldOrNew(format, v1, states[i].files) <==> !CutOffBefore(states, steps, i) && !MidWrite(states[i])
  {
    WholeUnlessCutOff(format, v1, states, steps, i);
    hide Sound;
    if MidWrite(states[i]) {
      MidWriteIsTorn(format, v1, states[i]);
    }
    if Torn(format, v1, states[i].files) {
      TornIsNeither(format, v1, states[i].files.cache.value);
    }
  }

  /** From wherever an attempt stands before the cache is touched, its own steps lead to the truncated cache. */
  lemma {:induction false} ReachesTruncation<V(!new)>(format: Format<V>, v1: string, s: State)
    returns (states: seq<State>, steps: seq<Step>)
    requires format.parse(v1).Some? && Invariant(format, v1, s) && !s.phase.Idle? && !s.phase.WritingCache?
    ensures Run(format, states, steps) && states[0] == s
    ensures states[|steps|].phase == WritingCache(MigratedText(format, v1), 0)
            && states[|steps|].files.cache == Some("")
    decreases Remaining(format, s)
  {
    var t := AdvanceOnce(format, v1, s);
    if s.phase.BackupDone? {
      states, steps := [s, t], [Advance];
    } else {
      states, steps := ReachesTruncation(format, v1, t);
      RunCons(format, s, states, steps, Advance);
      states, steps := [s] + states, [Advance] + steps;
    }
  }

  lemma RunSnoc<V>(format: Format<V>, states: seq<State>, steps: seq<Step>, t: State, step: Step)
    requires Run(format, states, steps) && Next(format, states[|steps|], t, step)
    ensures Run(format, states + [t], steps + [step])
  {
    hide Next;
    var longer, more := states + [t], steps + [step];
    forall i | 0 <= i < |more| ensures Next(format, longer[i], longer[i + 1], more[i]) {
      if i < |steps| {
        assert longer[i] == states[i] && longer[i + 1] == states[i + 1] && more[i] == steps[i];
      }
    }
  }

  /**
   * Every file of version 1 can be lost from the cache: a first attempt that ends right after the truncation
   * leaves the cache empty, which is neither the original nor the migrated text.
   */
  lemma TruncationTears<V(!new)>(format: Format<V>, v1: string) returns (states: seq<State>, steps: seq<Step>)
    requires Sound(format) && format.parse(v1).Some? && format.parse(v1).value.schemaVersion == 1
    requires MigratedText(format, v1) != ""
    ensures Run(format, states, steps) && states[0] == State(Files(Some(v1), None), Idle)
    ensures states[|steps|].phase.Idle? && states[|steps|].files.cache == Some("")
    ensures !OldOrNew(format, v1, states[|steps|].files)
  {
    var start := State(Files(Some(v1), None), Idle);
    var begun := State(Files(Some(v1), None), Parsed(v1));
    states, steps := ReachesTruncation(format, v1, begun);
    RunCons(format, start, states, steps, Begin);
    states, steps := [start] + states, [Begin] + steps;
    var last := State(states[|steps|].files, Idle);
    RunSnoc(format, states, steps, last, Crash);
    states, steps := states + [last], steps + [Crash];
    TornIsNeither(format, v1, "");
  }

  // ----- the code, cut off wherever it may be

  datatype Outcome = Migrated | CutOff | CannotRead | CannotParse | WrongVersion

  class CacheFiles {
    var cache: Option<string>
    var backup: Option<string>

    constructor (cache: Option<string>, backup: Option<string>)
      ensures this.cache == cache && this.backup == backup
    {
      this.cache, this.backup := cache, backup;
    }

    ghost function Both(): Files
      reads this
    {
      Files(cache, backup)
    }

    /**
     * `writeCache`: truncate, then write. The process may end before the file is opened, which is a negative `reach`,
     * or after that many characters.
     */
    method WriteCache(text: string, reach: int) returns (finished: bool)
      modifies this`cache
      ensures cache == if reach < 0 then old(cache) else Some(text[..if reach < |text| then reach else |text|])
      ensures finished <==> |text| <= reach
    {
      if reach < 0 {
        return false;
      }
      cache := Some("");
      var written := 0;
      while written < |text|
        invariant written <= |text| && written <= reach && cache == Some(text[..written])
      {
        if written == reach {
          return false;
        }
        written := written + 1;
        cache := Some(text[..written]);
      }
      finished := true;
    }

    method WriteBackup(text: string, reach: int) returns (finished: bool)
      modifies this`backup
      ensures backup == if reach < 0 then old(backup) else Some(text[..if reach < |text| then reach else |text|])
      ensures finished <==> |text| <= reach
    {
      if reach < 0 {
        return false;
      }
      backup := Some("");
      var written := 0;
      while written < |text|
        invariant written <= |text| && written <= reach && backup == Some(text[..written])
      {
        if written == reach {
          return false;
        }
        written := written + 1;
        backup := Some(text[..written]);
      }
      finished := true;
    }

    /**
     * `migrateV1ToV2`, started in any state at all. Where the original text `v1` can be had from the files before, it
     * can be had after, however far the two writes get.
     */
    method Migrate<V(!new)>(format: Format<V>, ghost v1: string, backupReach: int, cacheReach: int)
      returns (outcome: Outcome)
      requires Sound(format)
      modifies this
      ensures format.parse(v1).Some? && old(Recoverable(format, v1, Both())) ==>
                && Recoverable(format, v1, Both())
                && (outcome.Migrated? || outcome.CutOff? ==> old(cache) == Some(v1))
      ensures outcome == CannotRead <==> old(cache).None?
      ensures outcome == CannotParse <==> old(cache).Some? && format.parse(old(cache).value).None?
      ensures outcome == WrongVersion <==>
              old(cache).Some? && format.parse(old(cache).value).Some?
                && format.parse(old(cache).value).value.schemaVersion != 1
      ensures outcome.Migrated? || outcome.CutOff? <==> old(CanBegin(format, Both()))
      ensures old(CanBegin(format, Both())) ==>
                var raw := old(cache).value;
                && (outcome.Migrated? <==> |raw| <= backupReach && |MigratedText(format, raw)| <= cacheReach)
                && (outcome.Migrated? ==> Both() == Files(Some(MigratedText(format, raw)), Some(raw)))
      ensures !outcome.Migrated? && !outcome.CutOff? ==> Both() == old(Both())
    {
      if cache.None? {
        return CannotRead;
      }
      var raw := cache.value;
      var parsed := format.parse(raw);
      if parsed.None? {
        return CannotParse;
      }
      if parsed.value.schemaVersion != 1 {
        return WrongVersion;
      }
      if format.parse(v1).Some? && Recoverable(format, v1, Both()) && cache != Some(v1) {
        PrefixCannotBegin(format, v1, Both());
      }
      var saved := WriteBackup(raw, backupReach);
      if !saved {
        return CutOff;
      }
      assert raw[..|raw|] == raw;
      var text := format.render(Envelope(2, parsed.value.writtenAt, parsed.value.verdict));
      var written := WriteCache(text, cacheReach);
      assert text[..|text|] == text;
      outcome := if written then Migrated else CutOff;
    }
  }
}
