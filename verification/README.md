# Verified models of the label protocol, drift tooling and admission gates

This project models five parts of the repository in Dafny and proves what they promise.
`dafny verify dfyconfig.toml` checks everything.

1. **Trusted node labels.** A controller lists Nodes, attests each against EKS, Auto Scaling and EC2
   evidence, plans at most one label change, re-reads and re-checks the Node, and sends a guarded JSON Patch.
   An admission rule holds every other writer. The decision kernel is in `TrustedNodeLabel`, its declarative
   counterpart in `Attestation`, the texts it matches in `KernelTexts`, the reason of each denial in `DenyReasons`,
   inputs that reach each of its branches in `Attestable`, the effect of an applied plan on the next one in
   `LabelFixpoint`, Node documents, patches (RFC 6901, RFC 6902) and the admission rule in `Json`, `JsonPatch`,
   `NodeDocument` and `LabelAgreement`, what reader, gate and rule let through in `GateRules` and `AdmissionRule`,
   the concurrent protocol in `NodeProtocol`, the age of evidence when a patch takes effect in `EvidenceAge`, the
   controller's loop against an API server with arbitrary other writers in `NodeController`, its counters in
   `CycleRules`, what many cycles on unchanged evidence come to in `NodeFixpoint`, and the paginated listing in
   `NodeListing`.
2. **CIDR coverage.** Text parsers, block arithmetic and the sorted sweep, against "every address lies in
   some listed block", with printers of addresses: `Bits`, `Cidr`, `AddressText`, `CidrCoverage`.
3. **Drift reconciliation.** Discovery joins Pulumi state and cloud inventory (`Discovery`), the planner
   classifies, sorts, links and caps (`Reconciler`, `ReconcilerPlan`), the object stores plans and runs them
   under a token and a lock (`ReconcilerRun`, `ExecutionLocks`), `DiscoveryPlan` follows a resource through
   both, and `DiscoveryRun` on to the executors. `DiscoveryRules`, `ReconcilerRules` and `ReconcilerActions` write
   selectors, guardrails and every field of targets and actions out.
4. **Drift classification and its cache.** One call as a method over the cache file (`Classifier`), its tables
   (`ClassifierRules`), runs of calls (`ClassifierRuns`), and the migration of old cache files with a crash after
   any file step (`CacheMigration`).
5. **Live validator, scope text, dependency gate.** A worker pool (`LiveValidator`, `LiveSchedule`,
   `LivePool`), when the order in which adapters settle shows in the report (`LiveOrder`), the Markdown escaper
   with a decoder and a row reader (`MarkdownEscape`), the whole Markdown report and its reader
   (`LiveMarkdown`), what evidence, findings and numbers a report shows (`LiveRules`), canonical scope text
   (`ScopeCanonical`, `ScopeRules`), and the admission of a scan report with printed reports and the pnpm lockfile
   reader (`OsvGate`, `OsvReport`, `PnpmLock`).

`Wrappers`, `Text`, `TextRules`, `Sorting` and `DriftTypes` hold what these share.

## Conventions

- Thrown errors and `undefined` are `Option` or `Result`. JavaScript numbers are integers, or `NotInteger`
  where the code asks whether they are safe integers. `Date.parse` is an integer or a failure.
- Regular expressions are predicates on characters; `localeCompare` is lexicographic order by character code.
- SHA-256 is a function parameter about which nothing is assumed, so digests may collide in every theorem.
- Servers, clocks, adapters and executors answer with arbitrary values (`*`) or by functions about which nothing is
  assumed, so a postcondition holds for every behaviour of theirs. The API server stamps each write with a
  version it never issued before.

## Findings

Places where the code does less than one might take it to promise, or than its comments say. Each names the
lemma with an input and the one with the exact condition.

- A Node with exactly 256 labels is labelled and then denied. `Attestable.FullNodeIsLabelled` has such a Node for
  every policy that can trust one, and `LabelFixpoint.AddFixpoint` the condition. The adapter cannot even read
  such a Node any more (`LabelAgreement.AddReadBack`), and while it is there every listing fails
  (`NodeListing.OverlabelledItemFailsListing`). A revocation may leave a Node the adapter cannot read either:
  `Attestable.LastLabelBlinds` has one for every policy, and by `LabelAgreement.RevokeMayBlindIff` it may be so
  exactly when the revocation takes the last label.
- The kernel does not bound the provider ID, the adapter's gate does (256 characters):
  `Attestable.PlannedButNotSent` is an addition that is planned and never sent, and
  `NodeDocument.PlannedAddPassesGate` has the condition.
- A policy that passes validation may never trust any Node: `Attestable.AcceptedButNeverTrusts` gives one, and by
  `Attestable.TrustableIff` it is so exactly when two expected taints share a key.
- `docs/slo/design/eks-trusted-node-label-reconciler-verified.md:37` says an applied change has fresh evidence.
  The code checks freshness when it plans; neither the re-check nor the patch looks at time again.
  `EvidenceAge.StaleEvidenceIsApplied` is a run in which evidence allowed for a minute is a millisecond older
  when the addition takes effect, `EvidenceAge.AnyDelayIsPossible` one for any delay, and
  `EvidenceAge.CurrentAtApplicationIff` has the delay up to which the evidence is still fresh. A change does hit
  exactly the state that was attested: `NodeProtocol.AddHitsPlannedVersion`.
- A tag selector, or an empty region or account list, makes discovery overlook a live resource, and the
  planner may then delete it from the state: `DiscoveryRun.PresentTopicIsDeleted` has the plans, and
  `DiscoveryPlan.StateDeleteIff` the exact condition.
- `packages/drift/src/discovery.ts:14-17` says that the singleton guard always fires for detectors and hubs. The
  test for a singleton is exact, the one for the deletion ignores letter case and position:
  `DiscoveryRun.ShoutedDetectorIsDeleted` has a plan without the flag, and `DiscoveryPlan.DetectorNeedsFlagIff` says
  when it is needed.
- The execution lock is per key, and the key is computed from the plan object the caller passes. Two accepted
  objects for one token can run the same stored actions at once exactly when their keys differ
  (`ExecutionLocks.SameTokenRunsTwiceIff`), as after an edit of the mode (`ExecutionLocks.EditedPlanRunsBesideIt`).
- The comments of `packages/drift/src/cache.ts` call the write atomic. `writeCache` truncates in place:
  `CacheMigration.TruncationTears` ends with an empty cache, and `CacheMigration.CacheIsWholeIff` says when the
  cache is the old or the new text. The original stays recoverable: `CacheMigration.OriginalSurvives`.
- They also say migration runs on first read. `readCache` does not migrate; a classification replaces a file of
  another schema exactly when its verdict is worth keeping (`ClassifierRuns.OtherSchemaIsReplacedIff`). So the
  monotonicity guard does not reach across schemas: `ClassifierRuns.HighVerdictIsReplaced`, with the exact
  condition in `ClassifierRuns.SchemaGuardIff`.
- The monotonicity guard protects the cached verdict, not the returned one: by
  `ClassifierRuns.AnswersKeepConfidenceIff` answers keep the cached confidence exactly when the entry has not
  expired or claims none.
- The order in which adapters settle may show in the report. `LiveOrder.TwoSchedulesTwoReports` has two failing
  adapters of one provider and two schedules of two workers with the two orders. By
  `LiveOrder.ScheduleDoesNotMatterIff` the report of accepted findings is the same for all schedules, up to times,
  exactly when there is one worker or for every key the findings of any two adapters commute; when each adapter's
  own findings have different keys this means that findings of one key agree (`LiveOrder.SharedKeysIff`).

## Model

| member | source | states |
|---|---|---|
| Cidr.ParseIpv4 | packages/k8s-baseline/src/cidr-coverage.ts:29-42 | accepts exactly the printed dotted quads of the numbers below 2^32 and returns the number printed |
| Cidr.Ipv4Unique | packages/k8s-baseline/src/cidr-coverage.ts:29-42 | a text denotes at most one number, so parsing and printing are mutual inverses |
| Cidr.ParseIpv6 | packages/k8s-baseline/src/cidr-coverage.ts:44-81 | accepts exactly eight hextets, or fewer with one `::`, and returns the 128-bit number they denote |
| Cidr.CompressionKeepsValue | packages/k8s-baseline/src/cidr-coverage.ts:44-81 | writing any run of one or more zero groups as `::` denotes the same number |
| Cidr.Ipv6Unique | packages/k8s-baseline/src/cidr-coverage.ts:44-81 | an accepted IPv6 text denotes exactly one number |
| Cidr.ParseCidr | packages/k8s-baseline/src/cidr-coverage.ts:87-123 | accepts exactly the texts of aligned blocks with a canonical prefix length; the block ends at start + 2^hostBits - 1 |
| Cidr.CidrUnique | packages/k8s-baseline/src/cidr-coverage.ts:87-123 | a CIDR text denotes at most one block |
| AddressText.HexTextRoundTrip | packages/k8s-baseline/src/cidr-coverage.ts:78 | every natural number written in hexadecimal, in either letter case, is read back |
| AddressText.HexCase | packages/k8s-baseline/src/cidr-coverage.ts:78 | letter case does not matter for the value of a hextet |
| AddressText.PrintedIpv6 | packages/k8s-baseline/src/cidr-coverage.ts:44-81 | every number below 2^128, printed as eight hextets in either letter case, denotes that number and no other |
| AddressText.PrintedBlock | packages/k8s-baseline/src/cidr-coverage.ts:87-123 | every aligned block, its address and prefix length printed, is read as that block and as no other |
| AddressText.WholeSpace | packages/k8s-baseline/src/cidr-coverage.ts:143-179 | the block of prefix length 0 covers its family alone |
| AddressText.CoveredIff | packages/k8s-baseline/src/cidr-coverage.ts:143-179 | a family is covered iff every number of 32, or of 128, bits lies in the block of some entry |
| CidrCoverage.CoversFrom0 | packages/k8s-baseline/src/cidr-coverage.ts:159-176 | the sweep with early break says yes exactly when every address up to the maximum lies in some block |
| CidrCoverage.AnalyzeCidrCoverage | packages/k8s-baseline/src/cidr-coverage.ts:143-179 | covers the internet iff all entries parse and for some family every address lies in some entry; otherwise the first malformed entry is named |
| CidrCoverage.VerdictIgnoresOrderAndRepeats | packages/k8s-baseline/src/cidr-coverage.ts:143-179 | the verdict depends only on which entries occur |
| CidrCoverage.SplittingKeepsVerdict | packages/k8s-baseline/src/cidr-coverage.ts:143-179 | replacing an entry by its two halves never changes the verdict |
| CidrCoverage.CoverageNeedsSize | packages/k8s-baseline/src/cidr-coverage.ts:143-179 | a covered family needs blocks whose sizes sum to at least 2^bits |
| JsonPatch.EscapeRoundTrip | packages/k8s-baseline/src/trusted-node-label-reconciler-core.ts:210-212 | the escape of a pointer token is a valid token that unescapes to the original, whatever its characters |
| JsonPatch.PointerRoundTrip | packages/k8s-baseline/src/trusted-node-label-reconciler-core.ts:210-212 | every member path is read back from its pointer text, as section 4 of RFC 6901 has it |
| Attestation.InputCheck | packages/k8s-baseline/src/trusted-node-label-reconciler-core.ts:303-366 | the ordered shape checks pass iff policy, Node and snapshots are well formed in the declarative sense |
| Attestation.EvidenceCheck | packages/k8s-baseline/src/trusted-node-label-reconciler-core.ts:277-301 | the time checks pass iff no timestamp is in the future or too old and all pairs are within the allowed skew |
| Attestation.MembershipCheck | packages/k8s-baseline/src/trusted-node-label-reconciler-core.ts:368-392 | passes iff the group snapshots are a bijection with the attested names and the instance occurs exactly once in them, in service and healthy |
| Attestation.TaintsCheck | packages/k8s-baseline/src/trusted-node-label-reconciler-core.ts:424-437 | passes iff each expected taint is the only taint with its key on the Node |
| Attestation.AssessIffAttested | packages/k8s-baseline/src/trusted-node-label-reconciler-core.ts:443-500 | all checks pass iff the declarative attestation holds, and the attested instance is the one named |
| Attestation.DecisionTable | packages/k8s-baseline/src/trusted-node-label-reconciler-core.ts:443-535 | which of patch, noop, revoke and deny is chosen, for every input, in terms of attestation and label |
| Attestation.RepeatedTaintKeyFailsClosed | packages/k8s-baseline/src/trusted-node-label-reconciler-core.ts:424-436 | a policy with two expected taints of one key never patches and never says noop |
| Attestation.TrustedOnFreshEvidence | packages/k8s-baseline/src/trusted-node-label-reconciler-core.ts:277-301 | a patch or noop means that the node group, every group and the EC2 instance were captured within the maximum age, and any two of them within the skew |
| KernelTexts.InstanceIdIff | packages/k8s-baseline/src/trusted-node-label-reconciler-core.ts:155 | instance IDs are `i-` and eight or seventeen lower-case hexadecimal digits |
| KernelTexts.ProviderIdIff | packages/k8s-baseline/src/trusted-node-label-reconciler-core.ts:156-157 | a provider ID is read exactly as the zone and instance ID it is put together from |
| KernelTexts.RegionIff | packages/k8s-baseline/src/trusted-node-label-reconciler-core.ts:159 | regions are two letters, an optional `gov`, a word and a digit |
| KernelTexts.ProtectedKeyIff | packages/k8s-baseline/src/trusted-node-label-reconciler-core.ts:173-188 | protected keys are a restricted prefix of DNS names, a slash and a name |
| KernelTexts.InputFitsIff | packages/k8s-baseline/src/trusted-node-label-reconciler-core.ts:303-366 | an input passes the shape checks iff texts, counts and limits are those written out |
| DenyReasons.TimesDenyIff | packages/k8s-baseline/src/trusted-node-label-reconciler-core.ts:277-301 | which reason the times of the evidence give, told from the capture times |
| DenyReasons.MembershipDeniesIff | packages/k8s-baseline/src/trusted-node-label-reconciler-core.ts:368-392 | which reason group names and memberships give |
| DenyReasons.PlacementDeniesIff | packages/k8s-baseline/src/trusted-node-label-reconciler-core.ts:394-422 | which reason the instance and the two Node labels give |
| DenyReasons.TaintsDenyIff | packages/k8s-baseline/src/trusted-node-label-reconciler-core.ts:424-437 | which reason the taints give: the first expected one not carried alone is missing or in conflict |
| DenyReasons.DeniedForIff | packages/k8s-baseline/src/trusted-node-label-reconciler-core.ts:443-500 | for every input: the reason that is reported is the first that holds, in the order of the checks, and the instance is named iff the provider ID could be read |
| DenyReasons.RevocableIff | packages/k8s-baseline/src/trusted-node-label-reconciler-core.ts:214-236 | when a label can be taken away safely, with its texts and numbers |
| DenyReasons.SuccessIs | packages/k8s-baseline/src/trusted-node-label-reconciler-core.ts:496-531 | what is planned for an attested Node, operation by operation |
| DenyReasons.FailureIs | packages/k8s-baseline/src/trusted-node-label-reconciler-core.ts:238-275 | what is planned for a Node that fails a check, operation by operation |
| DenyReasons.StalenessIff | packages/k8s-baseline/src/trusted-node-label-reconciler-core.ts:538-558 | which change the re-check reports |
| DenyReasons.CapacityIff | packages/k8s-baseline/src/trusted-node-label-reconciler-core.ts:561-572 | which capacity state is given for which sizes |
| Attestable.TrustableIff | packages/k8s-baseline/src/trusted-node-label-reconciler-core.ts:424-437 | for every accepted policy: some input is attested iff no two expected taints share a key |
| Attestable.AcceptedButNeverTrusts | packages/k8s-baseline/src/trusted-node-label-reconciler-core.ts:303-366 | a concrete accepted policy under which no input is attested |
| Attestable.FullNodeIsLabelled | packages/k8s-baseline/src/trusted-node-label-reconciler-core.ts:151 | for every policy that can trust a Node, one with exactly 256 labels is patched and its next plan is a bounds denial |
| Attestable.LongProviderIdIsPlanned | packages/k8s-baseline/src/trusted-node-label-reconciler-core.ts:156-157 | additions are planned with provider IDs of any length |
| Attestable.PlannedButNotSent | packages/k8s-baseline/src/trusted-node-label-controller-kubernetes.ts:236 | a concrete planned addition that the adapter refuses to send |
| LabelFixpoint.ProtectedKeyIsNotAttested | packages/k8s-baseline/src/trusted-node-label-reconciler-core.ts:173-188 | a valid protected key is never one of the two labels the attestation reads |
| LabelFixpoint.AddFixpoint | packages/k8s-baseline/src/trusted-node-label-reconciler-core.ts:443-535 | after an applied addition the next plan is noop iff the Node had fewer than 256 labels, and a denial otherwise |
| LabelFixpoint.RevokeFixpoint | packages/k8s-baseline/src/trusted-node-label-reconciler-core.ts:238-275 | after an applied revocation the next plan is a denial for the same reason |
| LabelFixpoint.FailureFixpoint | packages/k8s-baseline/src/trusted-node-label-reconciler-core.ts:238-275 | the same for the failures planned without the kernel |
| NodeDocument.PlannedAddPassesGate | packages/k8s-baseline/src/trusted-node-label-controller-kubernetes.ts:211-255 | a planned addition passes the adapter's gate iff the provider ID has at most 256 characters |
| NodeDocument.PlannedRevokePassesGate | packages/k8s-baseline/src/trusted-node-label-controller-kubernetes.ts:211-255 | a planned revocation always passes the gate |
| NodeDocument.LabelPathAddresses | packages/k8s-baseline/src/trusted-node-label-controller-kubernetes.ts:241 | the escaped label path addresses the label itself |
| NodeDocument.PrintedNode | packages/k8s-baseline/src/trusted-node-label-controller-kubernetes.ts:160-187 | every Node within the bounds is read back from its document |
| NodeDocument.AddPatchEffect | packages/k8s-baseline/src/trusted-node-label-reconciler-core.ts:514-530 | applied by RFC 6902 the planned addition succeeds iff uid, version and provider ID match and labels exist, and adds one label |
| NodeDocument.RemovePatchEffect | packages/k8s-baseline/src/trusted-node-label-reconciler-core.ts:252-274 | the planned removal succeeds iff identity and the configured label match, and removes one label |
| NodeDocument.ExactAdditionIff | packages/k8s-baseline/src/trusted-node-label-reconciler.ts:394 | the CEL size-and-inclusion rule holds iff the new labels are the old ones plus exactly the one pair |
| NodeDocument.ExactRemovalIff | packages/k8s-baseline/src/trusted-node-label-reconciler.ts:395 | the CEL removal rule holds iff the new labels are the old ones without exactly the one pair |
| GateRules.ReadIff | packages/k8s-baseline/src/trusted-node-label-controller-kubernetes.ts:129-187 | a document is read as a Node iff it holds each of its parts within the bounds |
| GateRules.GateIff | packages/k8s-baseline/src/trusted-node-label-controller-kubernetes.ts:211-255 | the gate lets out exactly patches of three identity tests with one addition, or one test and removal, of the configured pair |
| GateRules.SelectorKeyIff | packages/k8s-baseline/src/trusted-node-label-controller-kubernetes.ts:16-17 | selector keys are a prefix and a name with a slash between them |
| AdmissionRule.ControllerIdentityIff | packages/k8s-baseline/src/trusted-node-label-reconciler.ts:390 | the controller is whoever has the user name prefix and the group |
| AdmissionRule.OthersUpdateIff | packages/k8s-baseline/src/trusted-node-label-reconciler.ts:393 | anybody else may update a Node iff the protected label stays as it is |
| AdmissionRule.AnyOtherUpdate | packages/k8s-baseline/src/trusted-node-label-reconciler.ts:393 | other writers of the protocol are held by nothing but the protected label, the name and the uid |
| AdmissionRule.CreateIff | packages/k8s-baseline/src/trusted-node-label-reconciler.ts:432 | a Node may be created iff it lacks the protected label |
| AdmissionRule.ControllerUpdateIff | packages/k8s-baseline/src/trusted-node-label-reconciler.ts:394-412 | for Nodes of known members: the controller identity may update iff the new Node is the old one with the one pair added, or taken away up to an empty label map |
| AdmissionRule.IdentityLeavesRest | packages/k8s-baseline/src/trusted-node-label-reconciler.ts:396-412 | no update under the controller identity, planned or not, touches spec, status or the named metadata |
| AdmissionRule.OnlyLabelsMove | packages/k8s-baseline/src/trusted-node-label-reconciler.ts:396-412 | over every run in which only that identity writes, every Node keeps spec, status and the named metadata |
| LabelAgreement.AddAgreement | packages/k8s-baseline/src/trusted-node-label-reconciler.ts:391-412 | planner, gate, RFC 6902 and admission rule agree on every planned addition with a provider ID the gate takes |
| LabelAgreement.RevokeAgreement | packages/k8s-baseline/src/trusted-node-label-reconciler.ts:391-412 | the same for every planned revocation, in either stored form of an empty label map |
| LabelAgreement.AddReadBack | packages/k8s-baseline/src/trusted-node-label-controller-kubernetes.ts:129-137 | the adapter reads the written Node as planned iff the Node had fewer than 256 labels |
| LabelAgreement.RevokeReadBack | packages/k8s-baseline/src/trusted-node-label-controller-kubernetes.ts:129-137 | after a revocation the adapter reads the Node as planned iff a label map is left, and only the last label can take the map with it |
| LabelAgreement.RevokeMayBlindIff | packages/k8s-baseline/src/trusted-node-label-controller-kubernetes.ts:129-137 | some stored form of a Node after a revocation is unreadable iff the revocation took its only label |
| LabelAgreement.LastLabelForms | packages/k8s-baseline/src/trusted-node-label-controller-kubernetes.ts:160-187 | a Node with the protected label alone has exactly two stored forms after the revocation, one readable and one not |
| Attestable.LastLabelBlinds | packages/k8s-baseline/src/trusted-node-label-reconciler-core.ts:238-275 | for every accepted policy a Node, a planned revocation that the gate passes, and its stored form that the adapter cannot read |
| LabelAgreement.OverlabelledIsUnreadable | packages/k8s-baseline/src/trusted-node-label-controller-kubernetes.ts:129-137 | a document with more than 256 labels is not read as a Node |
| LabelAgreement.ValidatedPatchSucceeds | packages/k8s-baseline/src/trusted-node-label-reconciler-core.ts:538-558 | the re-check accepts a Node iff the planned addition succeeds on it and is admitted |
| LabelAgreement.ValidatedRevokeSucceeds | packages/k8s-baseline/src/trusted-node-label-reconciler-core.ts:538-558 | the re-check accepts a Node iff the planned removal succeeds on it |
| NodeProtocol.AddHitsPlannedVersion | packages/k8s-baseline/src/trusted-node-label-controller.ts:225-248 | a successful addition replaces exactly the version planned on, adds exactly one label and touches no other Node |
| NodeProtocol.RevokeHitsPlannedVersion | packages/k8s-baseline/src/trusted-node-label-controller.ts:225-248 | a successful revocation replaces exactly the version planned on and removes exactly one label |
| NodeProtocol.LabelStep | packages/k8s-baseline/src/trusted-node-label-reconciler.ts:393-441 | in one step of any writer a Node carries the label only if it kept it or an attesting addition put it there |
| NodeProtocol.RunCoherent | packages/k8s-baseline/src/trusted-node-label-controller.ts:164-267 | over every run a stored version stands for the document it was issued with |
| NodeProtocol.LabelsComeFromAttestation | packages/k8s-baseline/src/trusted-node-label-controller.ts:164-267 | over every run a labelled Node was labelled by an earlier step that attested it in exactly that state, and has carried the configured label ever since |
| EvidenceAge.PlannedOnFreshEvidence | packages/k8s-baseline/src/trusted-node-label-reconciler-core.ts:277-301 | a planned addition was made on evidence that was fresh at planning time |
| EvidenceAge.CurrentAtApplicationIff | packages/k8s-baseline/src/trusted-node-label-controller.ts:225-248 | for every planned addition and time of application: every piece of the evidence is still within its age iff the oldest piece is, and that bounds the delay |
| EvidenceAge.PlannedAdditionIsAccepted | packages/k8s-baseline/src/trusted-node-label-controller.ts:225-248 | a planned addition to an unchanged Node is accepted by gate, server and admission rule at any time |
| EvidenceAge.AnyDelayIsPossible | packages/k8s-baseline/src/trusted-node-label-controller.ts:225-248 | in every deployment whose policy can trust a Node there is a run that applies an addition any given time after its evidence |
| EvidenceAge.StaleEvidenceIsApplied | packages/k8s-baseline/src/trusted-node-label-controller.ts:225-248 | a concrete run in which one-minute evidence is 60001 ms old when the addition is applied |
| NodeController.ApiServer.GetNode | packages/k8s-baseline/src/trusted-node-label-controller-kubernetes.ts:403-415 | after any moves of other writers, reads the Node as it is, unless name, request or document fail |
| NodeController.ApiServer.PatchNode | packages/k8s-baseline/src/trusted-node-label-controller-kubernetes.ts:417-438 | keeps the history a protocol run; applied iff gate, patch and admission rule accept it as things then are; acknowledged iff applied and not lost |
| NodeController.Gather | packages/k8s-baseline/src/trusted-node-label-controller.ts:170-204 | a described instance is judged on the shared evidence at the time read; otherwise malformed provider ID or unavailable evidence |
| NodeController.Send | packages/k8s-baseline/src/trusted-node-label-controller.ts:225-266 | the Node is read again; the patch is sent iff that Node passes the re-check; the change counts as applied iff acknowledged, and then is a protocol step for this cause |
| NodeController.ReconcileNode | packages/k8s-baseline/src/trusted-node-label-controller.ts:164-267 | one turn of the loop: the counters it adds match the outcome, and a reported change is backed by a step |
| NodeController.CleanCycle | packages/k8s-baseline/src/trusted-node-label-controller.ts:158-162 | a cycle counts no failure iff capacity is in order and every Node was attested and is labelled; missing labels never outnumber failures but for capacity |
| NodeController.PatchedAreApplied | packages/k8s-baseline/src/trusted-node-label-controller.ts:239-267 | the patched counter is the number of acknowledged changes |
| NodeController.RunCycle | packages/k8s-baseline/src/trusted-node-label-controller.ts:117-286 | the whole cycle: one outcome per listed Node, each judged on what the providers answered for it; nothing but the listing and the outcomes' requests is sent; counters are sums over outcomes, every reported change is a step of the run, no failures means every listed Node is vouched for |
| NodeController.RevokedOnlyUnattested | packages/k8s-baseline/src/trusted-node-label-controller.ts:170-221 | an outcome judged on the shared evidence revokes only a labelled Node that is not attested, whose provider ID is malformed or for which evidence is unavailable |
| NodeController.UnchangedIsSent | packages/k8s-baseline/src/trusted-node-label-controller.ts:225-248 | a Node read again unchanged gets its patch request |
| CycleRules.CountedFor | packages/k8s-baseline/src/trusted-node-label-controller.ts:206-267 | what each Node adds to failures, missing labels and patches, told from attestation, label and request |
| CycleRules.CandidatesAre | packages/k8s-baseline/src/trusted-node-label-controller.ts:152-154 | the observed count is the number of listed Nodes with the node group label |
| CycleRules.StartsWith | packages/k8s-baseline/src/trusted-node-label-controller.ts:155-161 | the counters a cycle starts with, told from the sizes |
| NodeFixpoint.StepSettles | packages/k8s-baseline/src/trusted-node-label-controller.ts:170-267 | a step of the controller changes one Node, which called for it, and leaves it unreadable or calling for nothing on the same evidence |
| NodeFixpoint.AtMostOneChange | packages/k8s-baseline/src/trusted-node-label-controller.ts:117-286 | over every run from any state in which the evidence stays the same and only the controller writes, each Node is changed at most once |
| NodeListing.Listing.Collect | packages/k8s-baseline/src/trusted-node-label-controller-kubernetes.ts:343-394 | at most 12 requests; success means the complete chain of pages that the server has for this selector, all items merged; failure means there is no such chain of mergeable items |
| NodeListing.Listing.AddItem | packages/k8s-baseline/src/trusted-node-label-controller-kubernetes.ts:369-386 | keeps both indexes consistent, Nodes distinct in uid and name and within the bound, and fails as the merge of the items does |
| NodeListing.MergeIff | packages/k8s-baseline/src/trusted-node-label-controller-kubernetes.ts:369-386 | items merge iff all can be read, no two Nodes share a uid or name, repeats are in the same order, and there are no more different ones than allowed |
| NodeListing.OneListing | packages/k8s-baseline/src/trusted-node-label-controller-kubernetes.ts:343-394 | a server has at most one whole listing for a selector |
| NodeListing.OverlabelledItemFailsListing | packages/k8s-baseline/src/trusted-node-label-controller-kubernetes.ts:369-386 | no listing that was served a Node with more than 256 labels succeeds |
| NodeListing.ListedWereRead | packages/k8s-baseline/src/trusted-node-label-controller-kubernetes.ts:329-401 | a listing of documents the server issued returns Nodes as the protocol lets the controller have read them |
| NodeListing.Listing.ListCandidateNodes | packages/k8s-baseline/src/trusted-node-label-controller-kubernetes.ts:329-401 | for any server at most 24 requests; with acceptable arguments succeeds iff the server has a whole listing for each of the two selectors asked and all items merge, and returns exactly their Nodes |
| ReconcilerPlan.ClassifiedIff | packages/drift/src/reconciler.ts:355-504 | before the cap an action is executable for a change iff that change may be made to the target |
| ReconcilerPlan.FlagNeededIff | packages/drift/src/reconciler.ts:373-396 | a deletion permitted with the singleton flag is permitted without it iff the resource counts as no singleton |
| ReconcilerPlan.ExecutableIff | packages/drift/src/reconciler.ts:199-246 | every planned action is about one target and executable iff prefix, region, account, age, signals, singleton, mode, executor and cap allow it; it changes state or cloud, not both |
| ReconcilerPlan.MayChangeIsPlanned | packages/drift/src/reconciler.ts:199-246 | every change that may be made within the cap is an executable action of the plan |
| ReconcilerPlan.TargetIsPlanned | packages/drift/src/reconciler.ts:199-209 | every target has its action in the plan |
| ReconcilerPlan.DistinctIds | packages/drift/src/reconciler.ts:488 | action ids are pairwise different, whatever the digests |
| ReconcilerPlan.DependencyComesFirst | packages/drift/src/reconciler.ts:537-563 | an action depends on another iff it deletes a recorder and some action deletes a delivery channel in the same place; the one it names has a smaller index |
| ReconcilerPlan.SummaryByChoice | packages/drift/src/reconciler.ts:677-694 | each summary counter is the number of actions recommended for it |
| ReconcilerPlan.SummaryCountsTargets | packages/drift/src/reconciler.ts:677-694 | the five counters add up to the number of targets |
| ReconcilerRules.MayChangeIff | packages/drift/src/reconciler.ts:355-504 | when a change may be made, with prefix, lists, age, signals, singleton, mode and executor written out |
| ReconcilerRules.AgeDecidesIff | packages/drift/src/reconciler.ts:618-627 | a target otherwise permitted may be changed iff it is at least the minimum age old; an unreadable date never passes |
| ReconcilerRules.WaitingKeepsPermission | packages/drift/src/reconciler.ts:618-627 | what may be changed now may be changed at every later time |
| ReconcilerRules.ExecutedIsOldEnough | packages/drift/src/reconciler.ts:252-334 | whatever reached an executor was old enough when it was planned |
| ReconcilerActions.NormalizedIff | packages/drift/src/reconciler.ts:339-353 | which scopes are refused for their trimmed prefix, and what the others become |
| ReconcilerActions.FamilyIff | packages/drift/src/reconciler.ts:506-519 | the delete family of a type is that of the first name it mentions |
| ReconcilerActions.ReasonsIff | packages/drift/src/reconciler.ts:364-396 | a guardrail speaks iff its condition on target, scope and time holds |
| ReconcilerActions.ClassifiedAs | packages/drift/src/reconciler.ts:407-504 | every field of a classified action: choice, type, open choices, mutations and approval |
| ReconcilerActions.ClassifiedReasons | packages/drift/src/reconciler.ts:466-504 | the reasons given are exactly those that hold, and decide the risk |
| ReconcilerActions.ActionIdIs | packages/drift/src/reconciler.ts:488 | an id is the index in at least four digits and the digest |
| ReconcilerActions.PlanOrder | packages/drift/src/reconciler.ts:629-633 | in a plan the types of actions stand in the order of their names |
| ReconcilerActions.CapIff | packages/drift/src/reconciler.ts:211-227 | a plan over its cap, fifty by default, carries out nothing and says so in each action; one within it changes only dependencies |
| ReconcilerRun.OrphanReconciler.MakePlan | packages/drift/src/reconciler.ts:199-250 | refuses exactly the broad prefixes; stores the raw actions under the returned token; the plan holds the redacted ones; it is executable iff the mode mutates and all actions are |
| ReconcilerRun.OrphanReconciler.Execute | packages/drift/src/reconciler.ts:252-334 | refused on exactly four grounds, in order; otherwise locked out or one fitting result per stored action in order, an executor's own answer where it ran; executors get exactly the runnable actions; the lock is free afterwards |
| ReconcilerRun.EditedModeIsAccepted | packages/drift/src/reconciler.ts:252-268 | an accepted plan object edited to another mutating mode is accepted as well and has other lock fields |
| ReconcilerRun.RunnableIff | packages/drift/src/reconciler.ts:286-320 | an action reaches an executor iff it is executable, has an executor, and a non-empty allow list names its choice |
| ReconcilerRun.RunnableParts | packages/drift/src/reconciler.ts:286-320 | actions reach the executors one by one in their order |
| ReconcilerRun.SameLockFieldsIff | packages/drift/src/reconciler.ts:712-726 | which plan objects are locked alike |
| ReconcilerRun.ExecutedIsEntitled | packages/drift/src/reconciler.ts:252-334 | an executable planned action is a change the guardrails of a planned request permit |
| ReconcilerRun.OrphanReconciler.EverythingExecutedIsEntitled | packages/drift/src/reconciler.ts:197-335 | whatever the caller edited, all that ever reached an executor was permitted by a request planned on this object |
| ExecutionLocks.RunsAreExclusive | packages/drift/src/reconciler.ts:268-325 | in every interleaving at most one call per key runs and locks are held only by running calls |
| ExecutionLocks.LocksAreReleased | packages/drift/src/reconciler.ts:280-325 | when no call runs any more every lock is free |
| ExecutionLocks.RunningCallCanStep | packages/drift/src/reconciler.ts:280-325 | a call holding its lock can always run its next action or finish |
| ExecutionLocks.SameTokenRunsTwiceIff | packages/drift/src/reconciler.ts:712-726 | two accepted calls for one token can run together iff their plan objects have different lock keys |
| ExecutionLocks.EditedPlanRunsBesideIt | packages/drift/src/reconciler.ts:252-285 | every accepted plan runs together with its copy edited to another mutating mode, unless its digest collides |
| Discovery.DiscoverReconcileTargets | packages/drift/src/discovery.ts:69-150 | fails exactly without a selector; the loops compute the join that the lemmas are about |
| DiscoveryRules.StateListIs | packages/drift/src/discovery.ts:165-167 | the resources of the deployment win over the plain list |
| DiscoveryRules.PhysicalIdIff | packages/drift/src/discovery.ts:169-176 | a state resource is known by its id, or else by the first of four outputs that is a text |
| DiscoveryRules.SelectorIff | packages/drift/src/discovery.ts:152-163 | discovery runs iff a prefix or an element of some selector is given |
| DiscoveryRules.LeftOutIff | packages/drift/src/discovery.ts:186-217 | why an inventory entry is left out |
| DiscoveryRules.StateFitsIff | packages/drift/src/discovery.ts:219-234 | when a state resource is in scope |
| DiscoveryRules.DiagnosticsIff | packages/drift/src/discovery.ts:73-83 | the diagnostics are the entries left out, each with its reason |
| DiscoveryRules.LastWithIdIff | packages/drift/src/discovery.ts:85-90 | of entries with one physical ID the last one counts |
| DiscoveryRules.StateTargetIs | packages/drift/src/discovery.ts:95-126 | every field of the target of a state resource |
| DiscoveryRules.CloudTargetIs | packages/drift/src/discovery.ts:128-143 | every field of the target of an inventory entry |
| DiscoveryRules.TagEvidenceIff | packages/drift/src/discovery.ts:262-266 | exactly the tags with a `hulumi:` key are evidence |
| DiscoveryRules.DiscoveredOrder | packages/drift/src/discovery.ts:286-290 | targets stand in the order of their relationships |
| DiscoveryPlan.InventorySplits | packages/drift/src/discovery.ts:74-83 | every inventory entry is in scope or reported, never both |
| DiscoveryPlan.TargetsAreTheJoin | packages/drift/src/discovery.ts:85-149 | the targets are exactly the in-scope state resources and the in-scope cloud resources no such state resource claims |
| DiscoveryPlan.TargetCount | packages/drift/src/discovery.ts:92-144 | and as many, counting repetitions |
| DiscoveryPlan.MissingIff | packages/drift/src/discovery.ts:96-122 | a state resource counts as missing iff every inventory entry with its physical ID is hidden |
| DiscoveryPlan.StateDeleteIff | packages/drift/src/reconciler.ts:432-438 | the exact condition under which an in-scope state resource may be deleted from the state |
| DiscoveryPlan.NoStateDeleteOfPresentResource | packages/drift/src/reconciler.ts:369-396 | without a tag selector and empty lists no deletion from state is executable for a physical ID that occurs anywhere in the inventory |
| DiscoveryRun.NoPresentResourceWasDeleted | packages/drift/src/reconciler.ts:197-335 | over every sequence of plans and executions of requests discovered under plain scopes: no deletion from state that reached an executor was of a resource present in the world of its request |
| DiscoveryPlan.PresentResourceMayBeDeleted | packages/drift/src/discovery.ts:198-215 | concrete scopes with a tag selector or an empty list under which it is |
| DiscoveryRun.PresentTopicIsDeleted | packages/drift/src/reconciler.ts:199-246 | under each of these scopes the plan of the discovered targets deletes the present topic from the state |
| DiscoveryRun.NoMoreTargets | packages/drift/src/discovery.ts:92-144 | at most one target for each resource of state and inventory |
| DiscoveryPlan.DiscoveredSingletonIff | packages/drift/src/discovery.ts:18-24 | a discovered cloud resource counts as a singleton iff it is marked or its type is exactly one of two spellings |
| DiscoveryPlan.DetectorNeedsFlagIff | packages/drift/src/discovery.ts:14-20 | the executable deletion of a detector or hub needs the singleton flag iff the type is spelled so or the resource is marked |
| DiscoveryPlan.ShoutedDetector | packages/drift/src/reconciler.ts:513 | a concrete type is deleted as a detector and is not a singleton type |
| DiscoveryPlan.ShoutedDetectorMayBeDeleted | packages/drift/src/reconciler.ts:373-396 | a concrete discovered detector may be deleted under a scope without the flag |
| DiscoveryRun.ShoutedDetectorIsDeleted | packages/drift/src/reconciler.ts:199-246 | the plan of the discovered detector deletes it under a scope without the flag |
| Classifier.Decide | packages/drift/src/classifier.ts:189-233 | the matrix with its three corrections is one table of source, and confidence a function of it |
| Classifier.NeverExpires | packages/drift/src/classifier.ts:333-339 | the read that ignores the time to live never finds an entry expired |
| Classifier.Classify | packages/drift/src/classifier.ts:88-262 | the answer and the cache file after one call, for every file and every adapter behaviour |
| ClassifierRules.AnswersIff | packages/drift/src/cache.ts:55-85 | a stored entry answers iff it is within its time to live or its date cannot be read |
| ClassifierRules.AbsentIff | packages/drift/src/cache.ts:55-85 | which absence is reported for which file |
| ClassifierRules.RecordedAnswersIff | packages/drift/src/classifier.ts:106-262 | a recorded verdict answers the next call, which changes nothing, as long as it has not outlived its time |
| ClassifierRules.SourceIff | packages/drift/src/classifier.ts:189-233 | which source is given for which results of adapters and probe |
| ClassifierRules.EvidenceIs | packages/drift/src/classifier.ts:107-161 | the evidence: why the cache was absent, the four adapters, a failed probe |
| ClassifierRules.RecordsIff | packages/drift/src/classifier.ts:244-260 | when a verdict is recorded, told from file, time, adapters and threshold |
| ClassifierRuns.HighIff | packages/drift/src/classifier.ts:172-228 | a fresh verdict is high iff both required adapters are ok and both mutation and CloudTrail evidence are detected |
| ClassifierRuns.ConfidenceFollowsSource | packages/drift/src/verdict.ts:30-50 | confidence is a function of source, churn is exactly medium, no drift means no detection |
| ClassifierRuns.FailedAdapterKeepsCache | packages/drift/src/classifier.ts:172-187 | a failed required adapter leaves the file alone and yields unknown at low confidence |
| ClassifierRuns.ConfidenceNeverDecreases | packages/drift/src/monotonicity.ts:29-46 | over every sequence of calls the cached confidence never decreases |
| ClassifierRuns.CachedVerdictsAreRecorded | packages/drift/src/classifier.ts:244-260 | every cached verdict is the first one or was recorded by a call with working required adapters |
| ClassifierRuns.NoneIsNeverCached | packages/drift/src/classifier.ts:290-300 | no call ever caches a verdict without confidence |
| ClassifierRuns.HighComesFromEvidence | packages/drift/src/classifier.ts:106-262 | a cached high verdict goes back to a call that saw both kinds of evidence |
| ClassifierRuns.AnswersKeepConfidenceIff | packages/drift/src/classifier.ts:106-262 | all calls with this time and time to live answer with at least the cached confidence iff the entry has not expired or claims none |
| ClassifierRuns.LowerAnswerKeepsFile | packages/drift/src/classifier.ts:250-260 | a call that answers with less than the cached confidence leaves the file alone |
| ClassifierRuns.OtherSchemaIsReplacedIff | packages/drift/src/cache.ts:78-80 | a file of another schema is replaced iff the required adapters worked and the confidence reaches the threshold, whatever verdict the file holds |
| ClassifierRuns.SchemaGuardIff | packages/drift/src/classifier.ts:244-260 | no call lowers the confidence held by a file of another schema iff that confidence is at most the lowest one recorded |
| ClassifierRuns.HighVerdictIsReplaced | packages/drift/src/classifier.ts:244-260 | a concrete call that replaces a high verdict of another schema by a low one |
| CacheMigration.OriginalSurvives | packages/drift/src/cache.ts:124-162 | in every state of any sequence of attempts, each cut off anywhere, the original text is in the cache or the backup |
| CacheMigration.CacheIsWholeIff | packages/drift/src/cache.ts:89-100 | in every reachable state the cache is the original or the migrated text iff no write of it was cut off and none is going on |
| CacheMigration.TruncationTears | packages/drift/src/cache.ts:89-100 | for every version 1 text a run from it that ends with an empty cache |
| CacheMigration.AttemptCompletes | packages/drift/src/cache.ts:124-162 | an attempt left alone ends with the migrated text in the cache and the original in the backup |
| CacheMigration.CompletedAttempt | packages/drift/src/cache.ts:155-162 | the migrated file reads as version 2 with the same date and verdict and is not migrated again |
| CacheMigration.CacheFiles.WriteCache | packages/drift/src/cache.ts:89-100 | truncate-and-write leaves as much of the text as the process gets to, and finishes iff that is all of it |
| CacheMigration.CacheFiles.Migrate | packages/drift/src/cache.ts:124-162 | an attempt from any state keeps an original recoverable that was, starts exactly on a version 1 file, is completed iff both writes are, and otherwise says why and changes nothing |
| LiveValidator.RedactionFixesClean | packages/drift/src/live-validator.ts:747-759 | redaction changes a value iff it shows a secret member or is too deep |
| LiveValidator.RedactionIsIdempotent | packages/drift/src/live-validator.ts:740-759 | redacting again when rendering changes nothing |
| LiveRules.SecretKeyIff | packages/drift/src/live-validator.ts:126 | a key is secret iff one of the words occurs in it, in any letter case |
| LiveRules.RedactedAt | packages/drift/src/live-validator.ts:747-759 | what a report shows at each place of the evidence: nothing below a secret key or deeper than nine, marks in two cases, and everything else as it was |
| LiveRules.BoundedIs | packages/drift/src/live-validator.ts:649-694 | what is reported of an adapter that failed, returned no more than the cap, or more |
| LiveRules.ValidFindingIff | packages/drift/src/live-validator.ts:696-716 | which findings are accepted |
| LiveRules.ProviderOrder | packages/drift/src/live-validator.ts:374 | the adapters run in the order of their providers |
| LiveRules.FindingLeIff | packages/drift/src/live-validator.ts:732-738 | findings are sorted by provider, id and resource |
| LiveRules.SummaryIs | packages/drift/src/live-validator.ts:722-730 | each number of the summary counts the findings with its status |
| LiveRules.LimitsIff | packages/drift/src/live-validator.ts:833-839 | a run is refused for a limit below one; the limits left out |
| LivePool.Pool.RunAll | packages/drift/src/live-validator.ts:376-384 | whatever the schedule, every adapter is completed exactly once |
| LiveSchedule.StartedExactlyOnce | packages/drift/src/live-validator.ts:376-382 | in every schedule each adapter is started by exactly one event |
| LiveSchedule.InFlightBound | packages/drift/src/live-validator.ts:376-384 | at no moment of any history are more adapters in flight than there are workers |
| LiveSchedule.HistoryKeeps | packages/drift/src/live-validator.ts:376-384 | at every moment each started adapter is settled once or in one hand, and as many are started as settled or in flight |
| LiveSchedule.OrderReachableIff | packages/drift/src/live-validator.ts:376-384 | the completion orders of some schedule are exactly those in which each adapter settles once, and adapter a after at least a + 1 - workers others |
| LivePool.OrderDoesNotMatter | packages/drift/src/live-validator.ts:371-384 | in any completion order the findings collected are those of all adapters |
| LivePool.NormalizeAll | packages/drift/src/live-validator.ts:696-720 | accepts iff every finding is valid, keeps them one for one with evidence redacted and a time set |
| LivePool.ValidIff | packages/drift/src/live-validator.ts:696-720 | the collected findings are all accepted iff those of every adapter are, whatever the clock said |
| LivePool.RunLiveValidation | packages/drift/src/live-validator.ts:356-399 | the workers go through a complete schedule over the adapters sorted by provider; a report exactly when the three limits and all findings are acceptable; it is the one of the completion order of that schedule; exit code 0 iff nothing failed, timed out or was cut and there are findings, none bad |
| LivePool.CleanIff | packages/drift/src/live-validator.ts:649-694 | bounded findings are non-empty and all good iff every adapter completed with good findings and some returned any |
| LivePool.SummaryAddsUp | packages/drift/src/live-validator.ts:722-730 | the status counters add up to the total |
| LiveOrder.FindingOrder | packages/drift/src/live-validator.ts:732-738 | the comparison is a total order whose ties are exactly equal keys |
| LiveOrder.ReportTimeless | packages/drift/src/live-validator.ts:386-388 | up to times the report is what was pushed in completion order, sorted |
| LiveOrder.ScheduleDoesNotMatterIff | packages/drift/src/live-validator.ts:356-399 | all schedules of so many workers give one list up to times iff there is no report, or one worker, or for every key the findings of any two adapters commute |
| LiveOrder.SharedKeysIff | packages/drift/src/live-validator.ts:356-399 | with two workers and adapters whose own findings have different keys: iff findings of different adapters with one key agree |
| LiveOrder.ScheduleDoesNotMatter | packages/drift/src/live-validator.ts:356-399 | in these cases the list is that of all adapters, failed and cut ones included, sorted and redacted |
| LiveOrder.TwoSchedulesTwoReports | packages/drift/src/live-validator.ts:376-388 | two failing adapters of a provider and two schedules of two workers whose reports list the two failures in the two orders |
| LiveOrder.CompleteScheduleDoesNotMatter | packages/drift/src/live-validator.ts:356-399 | when no adapter failed or was cut, findings carry their time and keys differ, the lists are equal, times included |
| Sorting.SortStable | packages/drift/src/live-validator.ts:386-388 | sorting keeps the order of findings that tie |
| Sorting.SortedAlikeIff | packages/drift/src/live-validator.ts:386-388 | two sequences sort alike iff their ties stand in one order |
| MarkdownEscape.EscapeIsMap | packages/drift/src/live-validator.ts:761-769 | the six replacements equal one map over the characters |
| MarkdownEscape.CellRoundTrip | packages/drift/src/live-validator.ts:761-769 | a decoder gets every text back, with CRLF as LF |
| MarkdownEscape.CellHasNoLineFeed | packages/drift/src/live-validator.ts:761-769 | a rendered cell has no line feed |
| MarkdownEscape.CellIsInert | packages/drift/src/live-validator.ts:761-769 | every pipe in a rendered cell follows an odd run of backslashes |
| MarkdownEscape.RowIsOneRow | packages/drift/src/live-validator.ts:419-423 | a rendered row is one line in which a reader finds exactly its cells |
| MarkdownEscape.TableHasOneLinePerRow | packages/drift/src/live-validator.ts:419-424 | the rendered rows, joined by line feeds, are one line each |
| LiveMarkdown.ReportIsClean | packages/drift/src/live-validator.ts:740-745 | redacting a report that a run made accepts every finding and changes none |
| LiveMarkdown.RenderMarkdown | packages/drift/src/live-validator.ts:405-425 | renders iff every finding is accepted, heading and rows as lines ended by line feeds |
| LiveMarkdown.ReportLines | packages/drift/src/live-validator.ts:405-425 | whatever the fields hold, line feeds cut the text into ten heading lines, one line for each finding and an empty end |
| LiveMarkdown.ReportReadsBack | packages/drift/src/live-validator.ts:405-425 | a reader finds one row for each finding, in order, with its six fields, line ends as LF |
| LiveRules.NumbersReadBack | packages/drift/src/live-validator.ts:414 | a reader finds the five numbers of the summary in its row |
| ScopeCanonical.NormalisersAgree | packages/k8s-baseline/src/github-app-credential.ts:472-533 | build time and run time accept the same scopes and normalise them alike |
| ScopeCanonical.CanonicalIff | packages/k8s-baseline/src/github-app-credential.ts:89-146 | two accepted scopes have one canonical text iff they have the same repositories and permissions |
| ScopeCanonical.NormalisingIsIdempotent | packages/k8s-baseline/src/github-app-credential.ts:89-146 | normalising a normalised scope changes nothing |
| ScopeCanonical.PermissionsFit | packages/k8s-baseline/src/github-app-credential.ts:119-140 | a hundred permissions stay far below the size limit |
| ScopeRules.RepositoryIff | packages/k8s-baseline/src/github-app-credential.ts:23 | repositories are an account name, a slash and a project name other than the two directories |
| ScopeRules.ScopeIff | packages/k8s-baseline/src/github-app-credential.ts:89-146 | which scopes are accepted, and what they become |
| ScopeRules.BuildErrorIff | packages/k8s-baseline/src/github-app-credential.ts:472-533 | which error the build reports for which scope |
| ScopeRules.CanonicalIs | packages/k8s-baseline/src/github-app-credential.ts:133-137 | the canonical text is the JSON of the sorted permissions and the repositories |
| ScopeCanonical.ExactPermissionMapIff | packages/k8s-baseline/src/github-app-credential.ts:203-214 | comparing the printed permission maps is comparing the maps |
| ScopeCanonical.ReadBoundedResponseBody | packages/k8s-baseline/src/github-app-credential.ts:370-400 | returns the whole body iff it fits, and otherwise stops at the first chunk that exceeds the limit |
| OsvGate.ValidateInventory | scripts/osv-dependency-gate.py:199-230 | accepts iff every entry is well formed and requested, none is repeated and none is missing; returns all packages with their source |
| OsvGate.FindingsSummary | scripts/osv-dependency-gate.py:169-188 | fails iff some advisory is malformed, and lists every advisory of every package |
| OsvGate.CountsAddUp | scripts/osv-dependency-gate.py:185-187 | malicious plus ordinary findings are all findings |
| OsvGate.NoMalwareIff | scripts/osv-dependency-gate.py:180 | no malicious finding iff no advisory id or alias names malware, in any letter case |
| OsvGate.Admit | scripts/osv-dependency-gate.py:132-143 | exit code 0 exactly for an admissible report, 1 for malware, the scanner's own code when it is another, and an error otherwise |
| OsvGate.AdmissionMeans | scripts/osv-dependency-gate.py:132-143 | exit code 0 means each requested lockfile is exactly one scanned source with exactly the identities parsed independently, and no malware |
| OsvReport.PrintedReportIff | scripts/osv-dependency-gate.py:92-143 | a printed report is admitted iff its lockfiles are the requested ones, scanned once and with the packages they list, all advisory names are well formed, none has M, A, L in either case and a dash first, and the code is 0, or 1 with an advisory |
| OsvReport.NoMalwareIsAdmitted | scripts/osv-dependency-gate.py:169-196 | an admitted report has no id and no alias with such a beginning |
| OsvReport.AdvisoryNameIff | scripts/osv-dependency-gate.py:177-179 | advisory names are letters, digits and marks, with a letter or digit first |
| OsvReport.EcosystemIff | scripts/osv-dependency-gate.py:213 | which ecosystem a file name stands for, whatever its directory |
| OsvReport.EntryIff | scripts/osv-dependency-gate.py:204-213 | which results are well formed, in terms of their JSON members |
| OsvReport.ItemIff | scripts/osv-dependency-gate.py:214-221 | which packages are well formed, in terms of their JSON members |
| OsvReport.VulnOkIff | scripts/osv-dependency-gate.py:173-179 | which advisories are well formed, in terms of their JSON members |
| OsvReport.NameByWords | scripts/osv-dependency-gate.py:136 | a Python name is compared by its words in lower case, whatever marks stand between them |
| PnpmLock.PnpmInventory | scripts/osv-dependency-gate.py:252-274 | the line loop computes the scan that the lemmas are about and refuses an empty result |
| PnpmLock.ScanIff | scripts/osv-dependency-gate.py:252-274 | what is read are the key lines between header and next top-level key; one that cannot be read spoils the file |
| PnpmLock.SplitsBack | scripts/osv-dependency-gate.py:270 | name and version are read back from a key iff the version has no `@` |
| PnpmLock.LockfileReadsBack | scripts/osv-dependency-gate.py:252-274 | a printed packages block, plain or quoted keys, gives back exactly its identities whatever surrounds it |

## Left out

- Strings: a JavaScript string counts UTF-16 units and a Dafny string characters, so lengths differ outside the
  basic plane; UTF-8 decoding and Unicode case folding are not modelled.
- Values of the wrong dynamic type where the code only relies on its types or on a surrounding `try`.
- Object key order: `JSON.stringify` in `sameNodeSnapshot` is modelled as equality or an arbitrary extra refusal.
- JSON Pointer steps into arrays, and RFC 6902 operations the planner never emits.
- Nodes changed through the `status` subresource, which the admission rule does not match, and a rewrite of
  `managedFields` by the API server between admission and storage.
- A CEL evaluation error on an object without a `status` member, which denies; the model compares absent members.
- The time a cycle takes, its audit events and metrics, and the endless loop around the cycle.
- HTTP status handling beyond the listing, TLS, tokens, and the AWS requests themselves.
- The dotted-quad tail of IPv6 addresses (section 2.2 of RFC 4291), which the code does not accept.
- The text of reasons, recommendations and `why` lists, and the redaction of returned plans, which is a parameter.
- The provider field of resources, and `maxBatchSize`, which nothing reads.
- Duplicate keys in tag objects, which JavaScript objects cannot have; the model looks up the first.
- Cache file permissions and owners beyond "another owner", failed or interrupted writes during classification,
  and two processes on one cache file.
- CacheMigration.OriginalSurvives: takes it as given that a strict prefix of a printed envelope does not parse, and has one process at a time.
- LivePool.RunLiveValidation: does not model that an adapter that timed out may go on running in the background.
- The SARIF and JSON reports and the command line.
- An executor registered as `undefined`, which planning counts as present and execution as absent.
- Token minting and the broker around the scope comparison.
- Lockfile formats other than pnpm in the dependency gate, which are a parameter, and the native dependency guard.
- `json.loads` of a double-quoted pnpm key, which is a parameter, and the splitting of a file into lines.
