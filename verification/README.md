# AuditTrace: verified models of the operational scripts and the BFF identity path

Dafny models of the parts of the repository whose correctness spans loops, functions or
whole runs. `dafny verify dfyconfig.toml` checks everything. The outside world (HTTP,
Kubernetes, journald, SQL, YAML, files, clocks, signals, regular expressions, the JWT
library) appears as arbitrary functions or event sequences, so each theorem holds for every
behaviour of it.

| file | models |
|---|---|
| `Text.dfy`, `Lists.dfy`, `Dicts.dfy` | `str.find` with its locality laws; options, results, selecting from a list; dicts in insertion order |
| `Json.dfy` | JSON values, `json.dumps` (sections 5 to 7 of RFC 8259), and where a printed value shows a quoted key |
| `JsonReader.dfy`, `JsonNumbers.dfy`, `JsonLayout.dfy` | a reader written from that grammar, which inverts the printer; numbers; the two-space layout |
| `RealmSplice.dfy` | the bracket matcher and the realm-document splicer of `idp_export.py` |
| `IdpExport.dfy` | the secret eraser, the outgoing assertion, and the export as a whole |
| `Dedup.dfy`, `DedupClasses.dfy` | near-duplicate merging: the specification and what it guarantees; which records merge, from ids and token sets |
| `CuratorPipeline.dfy` | the runner's phases, updating its records in place, and what gets promoted |
| `Mesh.dfy`, `MeshHealer.dfy` | diagnosers, fail-closed gate, two-tier healer |
| `Certifier.dfy`, `CertifierVerdict.dfy`, `CertifierLimits.dfy` | the fault-injection certifier as a machine over events; exactly when a run passes; what a PASS does not say |
| `Bff.dfy`, `BffProgress.dfy` | concurrent validate/exchange/forward requests over one JWKS cache; where each of them stands |
| `Backfill.dfy` | the signature-status backfill: listing, owner reads, dry run, write, verify |
| `Replay.dfy` | dead-letter replay: racing plans and re-guarded updates |
| `Cleanup.dfy` | noise-trace cleanup: paging while deleting |
| `BuildRecord.dfy` | front matter, name tagging, the two-phase build record |
| `Chunking.dfy` | overlapping chunks and document ids |
| `DeviceFlow.dfy` | device-flow polling (section 3.5 of RFC 8628) into two stores |

Code that updates things step by step (the matcher, the splicer's loop, the curator runner
and its records, the gate loop, the verdict poll, the backfill, paging, chunking, polling,
`persist`, the memory server's uploads) is imperative and proved against a specification;
the theorems are lemmas about it. Servers are objects that keep their own log or store, and
what a run may do is stated about that. Concurrency and signals (`Bff`, `Replay`,
`Certifier`) are state machines over their steps.

## Where the code and its descriptions part

Each of these is a lemma with an input, beside one that says exactly when the code does what
is described; the code is modelled as it is.

- **Splicing needs more than "no string equals the key".** A string that ends in
  `"identityProviders` also prints the quoted key, because its own quote is escaped but
  still there (`Json.DumpsShows`). Even that is harmless when no colon follows up to the
  key's own: `RealmSplice.FilledSpans` and `RealmSplice.SecondMovesIff` give the exact
  condition, `RealmSplice.UncleanPayloadMisplaces` what a payload that breaks it does.
- **Sensitivity tags are stored under the document id alone.** Every record is tagged by
  its own text exactly when records that share an id carry equal flags
  (`CuratorPipeline.TagsAreOwnText`); otherwise a sensitive text can be promoted
  (`CuratorPipeline.SharedIdIsPromoted`).
- **A PASS is set before the last teardown, and only the text of a failed one stops a case.**
  An RBAC or negative-control case passes and then tears down, so it is restored if and only
  if that one teardown, its last event, worked (`CertifierLimits.PassWithoutRestore`). The
  host-root case tears its scaffold down first, but tests the text of the exception
  (scripts/deploy/faultinject.py:1114-1116): one that is empty, as a bare `assert` leaves it,
  lets the case go on and pass with the scaffold still there
  (`CertifierLimits.PassAfterSilentTeardown`). Such a pass is restored if and only if the
  scaffold's teardown worked, or the one tried again at the end did
  (`CertifierLimits.PassRestoresIff`).
- **The host-root certification does not look at its budget**
  (`CertifierLimits.ScaffoldIgnoresBudget`). How such a run can be late is
  `CertifierLimits.ScaffoldTiming`; a run that recovers at the first look is on time exactly
  when the time used before it and the length of a look fit in the budget
  (`CertifierLimits.OnTimeIff`), and any other stays below the budget plus two looks, a bound
  that is approached (`CertifierLimits.ScaffoldBounds`, `CertifierLimits.LaterLookPasses`).
- **A replay can reset a row dead-lettered after its plan**, which the tool's description
  rules out (`Replay.StalePlanResets`); `Replay.ResetIsOfThePlan` says exactly when. Its LIMIT
  comes before the collection filter (`Replay.PlanCoversIff`, and for every LIMIT
  `Replay.LimitHidesACollection`).
- **One cleanup run can skip noise.** `Cleanup.SweepClearsIff` says exactly when it does not,
  `Cleanup.NoiseAloneIsHalved` that half survives when everything is noise.
- **A build record whose server key or index status reads "pending" cannot be completed**,
  and the placeholder copy of the first upload stays stored (`BuildRecord.RevalidationIff`,
  `BuildRecord.PendingNamesNeverComplete`, `BuildRecord.PendingExample`).
- **`_positive_int` accepts zero**, and an interval of zero bounds nothing
  (`DeviceFlow.ZeroIntervalIsUnbounded`; a positive one does, `DeviceFlow.PollBudget`).
- **Three ways to a 500.** Refusals are described as a 401 for the inbound token and a 502 for
  the exchange, but a request also ends with 500: when its key fetch fails while its minted
  token is re-checked, because the inbound-token error that raises is not caught there
  (bff/auth.py:64-80, bff/exchange.py:145-155); when its JWKS or token endpoint's answer is
  JSON but no object, or the call raises what is no HTTP error, outside both handlers
  (bff/auth.py:77, bff/exchange.py:113); and when verifying a token raises something other
  than a token error, as a key the library cannot use does. `Bff.StatusIff` says that
  these are all, over every interleaving; `Bff.RecheckOutageIs500`, `Bff.OddJwksIs500`,
  `Bff.OddExchangeIs500` and `Bff.RaisingKeysAre500` are such runs.
- **A heal call raises not only when its request cannot be written**, the one exception its
  description names, but also, after the request was published, when the verdict cannot be
  read (scripts/deploy/mesh.py:612-613). `MeshHealer.UnreadableIsUnsafe` is such a run,
  `MeshHealer.HealRaisesIff` says exactly when it happens.

## Model

| member | source | states |
|---|---|---|
| Text.Find | scripts/deploy/idp_export.py:183-188 | the first occurrence at or after a position, and -1 only when there is none |
| Text.FindIsLocal | scripts/deploy/idp_export.py:183-188 | the first occurrence is decided by the text up to its end, whatever follows |
| Json.EscapeAsciiIsGood | scripts/deploy/idp_export.py:235-238 | every character's escape is printable ASCII, scanner-neutral, and shows a quote only behind a backslash |
| Json.AstralIsGood | scripts/deploy/idp_export.py:235-238 | the same for the surrogate pairs of characters beyond the basic plane |
| Json.PythonIsValid | scripts/deploy/idp_export.py:235-238 | Python's two-space, ASCII-only layout is one of the printers all splice laws hold for |
| Json.QuoteShows | scripts/deploy/idp_export.py:183-188 | a printed string shows `"key"` if and only if it equals the key or ends in a quote followed by the key |
| Json.DumpsShows | scripts/deploy/idp_export.py:183-188 | a whole printed value shows `"key"` if and only if one of its strings or member names does |
| Json.FalsyIff | scripts/deploy/idp_export.py:90-98 | which values Python takes as false |
| JsonNumbers.NumberIff | scripts/deploy/idp_export.py:235-238 | what the printer takes as a number is exactly what the number grammar makes of a sign, an integer, a fraction and an exponent |
| JsonNumbers.ZeroIff | scripts/deploy/idp_export.py:90-98 | a number is false exactly when its digits before the exponent make zero |
| JsonReader.PythonReads | scripts/deploy/idp_export.py:235-238 | every escape, surrogate pairs included, reads back to its character under the string grammar |
| JsonReader.EscapeForms | scripts/deploy/idp_export.py:235-238 | which of the forms each character is escaped in |
| JsonReader.DumpsReads | scripts/deploy/idp_export.py:235-238 | a printed value reads back to the value, at any level and whatever follows it |
| JsonReader.PythonDenotes | scripts/deploy/idp_export.py:235-238 | `json.loads(json.dumps(v, indent=2)) == v`, for every value |
| JsonLayout.DumpsLaid | scripts/deploy/idp_export.py:235-238 | every item and member stands on a line of its own, two spaces in for each bracket around it |
| RealmSplice.FindJsonArraySpan | scripts/deploy/idp_export.py:168-216 | the loop over index, depth, in-string and escape computes the specified span, and fails with the same five errors |
| RealmSplice.WhereItLeads | scripts/deploy/idp_export.py:183-194 | the first quoted key, the first colon after it, the first character that is no blank after that; and which error is raised where one of them is missing or is no bracket |
| RealmSplice.ScanPrinted | scripts/deploy/idp_export.py:195-216 | scanning any printed value is neutral, and an array met at depth zero is closed by its own last character, whatever its strings hold |
| RealmSplice.SpanOfPrinted | scripts/deploy/idp_export.py:168-216 | the matcher inverts the printer: for every array value, level, prefix, gap and suffix the span is exactly the printed array |
| RealmSplice.SpanIsLocal | scripts/deploy/idp_export.py:168-216 | the span does not depend on the text after it |
| RealmSplice.SpanAfterPrefix | scripts/deploy/idp_export.py:168-216 | a prefix in which the key does not start only shifts the span |
| RealmSplice.PatchRealmDocument | scripts/deploy/idp_export.py:219-239 | the loop that rebinds the result equals splicing the payload's keys in order, stopping at the first failure; and after it, when both keys can be patched, the text at each of them denotes exactly the payload's list |
| RealmSplice.SpliceLastWins | scripts/deploy/idp_export.py:219-239 | replacing one array twice keeps the last one, with no condition on strings |
| RealmSplice.SpliceDenotes | scripts/deploy/idp_export.py:219-239 | after a splice the text at the key's span denotes exactly the new list, with no condition |
| RealmSplice.FilledSpans | scripts/deploy/idp_export.py:219-239 | in a document's frame filled with any two arrays the first key leads to the first array, and the second key to the second if and only if the first array shows no such key or no colon follows its first shown marker up to the key's own |
| RealmSplice.SecondMovesIff | scripts/deploy/idp_export.py:219-239 | after one replacement the other array's span has merely moved if and only if that condition holds |
| RealmSplice.CleanReaches | scripts/deploy/idp_export.py:219-239 | on values: the condition holds when no string or member name of the array that stands first equals the other key or ends in a quote followed by it |
| RealmSplice.FrameFills | scripts/deploy/idp_export.py:219-239 | a document is its frame filled with its own two arrays |
| RealmSplice.PatchFrames | scripts/deploy/idp_export.py:219-239 | patching changes the two arrays and no other character, in either layout; only when the member processed first also stands first must its new array let the other key be reached |
| RealmSplice.PatchedIsFound | scripts/deploy/idp_export.py:219-239 | re-finding the keys yields exactly the new printed arrays if and only if the array that stands first lets the other key be reached |
| RealmSplice.PatchedDenotes | scripts/deploy/idp_export.py:219-239 | under that condition the text at both keys denotes exactly the payload's lists |
| RealmSplice.PatchLastWins | scripts/deploy/idp_export.py:219-239 | patching with p1 and then p2 equals patching with p2, hence idempotence |
| RealmSplice.UncleanPayloadMisplaces | scripts/deploy/idp_export.py:219-239 | on every document holding k1 first, an entry with a member named k2 draws the second list into the first array and leaves the real one alone |
| IdpExport.ExternalizeIdpSecrets | scripts/deploy/idp_export.py:49-116 | the appending loop equals the specification, or refuses with the first offending provider's error |
| IdpExport.ExternalizedIs | scripts/deploy/idp_export.py:82-116 | what one provider becomes, member by member: the secret, whatever its value, is the placeholder of its alias, everything else is as it was; refused only without an alias or with a config that is something and no object |
| IdpExport.SanitisedPasses | scripts/deploy/idp_export.py:119-143 | the outgoing assertion never fires on an externalised provider |
| IdpExport.PayloadRefusals | scripts/deploy/idp_export.py:146-165 | building the payload succeeds if and only if externalising does |
| IdpExport.ExternalizeOneIdempotent | scripts/deploy/idp_export.py:49-116 | externalising an externalised provider changes nothing, member order included |
| IdpExport.ExternalizeIdempotent | scripts/deploy/idp_export.py:49-116 | the same for whole lists |
| IdpExport.ExternalizeOneIgnoresSecret | scripts/deploy/idp_export.py:49-116 | providers that differ only in the secret's value give the same result or the same refusal |
| IdpExport.ExportIgnoresSecrets | scripts/deploy/idp_export.py:146-165 | payload and patched document are functions of the secret-erased provider list |
| IdpExport.CommittedDenotes | scripts/deploy/idp_export.py:146-239 | after the export the document's provider list denotes exactly the externalised providers in order, and its mapper list the mappers |
| IdpExport.RotationIsInvisible | scripts/deploy/idp_export.py:146-239 | re-exporting after a secret rotation leaves a committed document byte for byte as it is |
| Dedup.Canonical | scripts/curator/runner.py:475-495 | flags in canonical order; public-safe alone exactly when no sensitive flag holds |
| Dedup.CanonicalIff | scripts/curator/runner.py:475-495 | each of the five sensitive flags that holds, and public-safe exactly when none does |
| Dedup.CanonicalOrder | scripts/curator/runner.py:475-495 | flags stand in the taxonomy's order, each once |
| Dedup.LessIff | scripts/curator/runner.py:623-623 | the order of `created_at` is that of the first differing character |
| Dedup.JaccardFacts | scripts/curator/runner.py:574-580 | similarity is symmetric, between 0 and 1, and 1 exactly for equal signatures |
| Dedup.MergeLinks | scripts/curator/runner.py:583-588 | the links of both records, the primary's order first |
| Dedup.MergedOrder | scripts/curator/runner.py:583-588 | the added links stand behind, each once, in the order of their first place in the other list |
| Dedup.FirstMatch | scripts/curator/runner.py:607-619 | the first survivor the record collides with, or none |
| DedupClasses.CollidesIff | scripts/curator/runner.py:611-619 | two records collide if and only if they share an id or the intersection of their token sets over the union reaches the threshold |
| Dedup.EverySurvivorRepresents | scripts/curator/runner.py:591-638 | for every input and threshold: each input has exactly one class, and each survivor is the last input of maximal created_at in its class with exactly the class's ids superseded, links and flags |
| DedupClasses.JoinsFirstAlike | scripts/curator/runner.py:605-622 | an input opens a new class if and only if no survivor of the inputs before it shares its id or is that similar; otherwise it joins the first that does |
| DedupClasses.EventIs | scripts/curator/runner.py:623-637 | the event of each input: none when it opens a class, else the ids of the newer and the older, 1.0 or the quotient, and the tier |
| DedupClasses.EqualTextsMerge | scripts/curator/runner.py:591-638 | records of one signature leave one survivor, for every threshold up to 1 |
| DedupClasses.DistinctTextsStay | scripts/curator/runner.py:591-638 | records of distinct ids, no two of which reach the threshold, are all kept and no event is made |
| Dedup.DedupConserves | scripts/curator/runner.py:591-638 | survivors plus merge events are the inputs, in number and id by id |
| Dedup.TierSurvivors | scripts/curator/runner.py:641-658 | no class crosses a tier |
| Dedup.EveryRecordHasASurvivor | scripts/curator/runner.py:641-658 | every record is kept or superseded by a survivor of its own tier that carries its links and sensitive flags |
| Dedup.WithinTiersConserves | scripts/curator/runner.py:641-658 | conservation of ids over all tiers |
| CuratorPipeline.NormalizeConserves | scripts/curator/runner.py:1249-1276 | every raw record is normalised or flagged |
| CuratorPipeline.NormalizedIff | scripts/curator/runner.py:533-567 | exactly the records with an id and a text of one of the three collections are normalised, each to its own fields and stored tags; of the others the ids are flagged |
| CuratorPipeline.LastDecides | scripts/curator/runner.py:1227-1236 | the tag stored for an id is that of the last record carrying it |
| CuratorPipeline.TagsAreOwnText | scripts/curator/runner.py:1227-1262 | every record is tagged by its own text if and only if records sharing an id have equal flags |
| CuratorPipeline.PromotionIsSafe | scripts/curator/runner.py:1301-1326 | a private survivor is eligible for promotion if and only if every record of its class was tagged exactly public-safe |
| CuratorPipeline.PromotedTextsAreClean | scripts/curator/runner.py:1227-1326 | under that condition no record absorbed by a promoted one matches a sensitive pattern in its own text |
| CuratorPipeline.SharedIdIsPromoted | scripts/curator/runner.py:1227-1326 | two records under one id, the newer sensitive and the later-listed clean: the sensitive text survives and is promoted |
| CuratorPipeline.CuratedRecord.AbsorbOlder | scripts/curator/runner.py:624-629 | the in-place update of the newer record |
| CuratorPipeline.CuratedRecord.Place | scripts/curator/runner.py:1314-1342 | status of one record from the server's own answer; the server sees a call if and only if the record is eligible |
| CuratorPipeline.PlacementIff | scripts/curator/runner.py:1314-1342 | exactly when a record gets each of the five statuses |
| CuratorPipeline.FindMatch | scripts/curator/runner.py:607-619 | the inner loop finds the first collision and its similarity |
| CuratorPipeline.StepInPlace | scripts/curator/runner.py:605-637 | one round on the mutable records equals one step of the specification |
| CuratorPipeline.DedupInPlace | scripts/curator/runner.py:591-638 | the whole loop leaves the survivors and merge events of the specification |
| CuratorPipeline.DedupOneTier | scripts/curator/runner.py:651-658 | one tier is merged and records of other tiers are untouched |
| CuratorPipeline.CuratorRunner.PhaseTag | scripts/curator/runner.py:1227-1247 | the tags after C3 |
| CuratorPipeline.CuratorRunner.PhaseNormalize | scripts/curator/runner.py:1249-1278 | curated and flagged records after C4 |
| CuratorPipeline.CuratorRunner.PhaseDedup | scripts/curator/runner.py:1280-1299 | curated records and merges after C5 |
| CuratorPipeline.CuratorRunner.PhaseTierPlacement | scripts/curator/runner.py:1301-1351 | the calls the server saw and the statuses set by C6; no other field of a record changes |
| CuratorPipeline.CuratorRunner.Run | scripts/curator/runner.py:1592-1600 | the phases in order up to tier placement; an abort, a dry run or an exception out of intake curates and calls nothing; otherwise the server saw exactly the eligible curated records |
| Mesh.CountSmokingGun | scripts/deploy/mesh.py:713-719 | zero exactly when no log line holds a pattern |
| Mesh.SignalIff | scripts/deploy/mesh.py:713-819 | exactly when each signal is raised, from the four reads |
| Mesh.HealthyMeansEvidence | scripts/deploy/mesh.py:722-963 | a diagnosis is healthy if and only if all four reads succeeded and showed ready nodes, clean logs, enough replicas and an endpoint |
| Mesh.Evaluate | scripts/deploy/mesh.py:966-1007 | the loop's result, the diagnoses handed to the healer (unhealthy, latest), and a total sleep of backoff times k(k+1)/2 |
| Mesh.GateVerdict | scripts/deploy/mesh.py:966-1007 | safe if and only if the final diagnosis is healthy; HEALED with k attempts if and only if the k-th re-diagnosis is the first healthy one within the cap and no attempt raised |
| Mesh.AttemptsAre | scripts/deploy/mesh.py:984-1007 | the attempts are what the healer said, call by call, with an error for a call that raised, which is the last; an unsafe run has called until then or to the cap |
| Mesh.GateIgnoresClaims | scripts/deploy/mesh.py:966-1007 | the outcome does not depend on what the healer claims to have done |
| MeshHealer.AwaitVerdict | scripts/deploy/mesh.py:610-637 | looks a poll interval apart while their time is below the timeout, stopping at the first file; it raises when that cannot be read and times out only when every look missed |
| MeshHealer.WaitEndsIff | scripts/deploy/mesh.py:610-637 | the wait ends if and only if the poll interval is positive, the timeout is not, or some look finds a file |
| MeshHealer.HealRaisesIff | scripts/deploy/mesh.py:544-707 | a heal call raises if and only if, with a host-root signal and the trigger installed, the request could not be published or the first file found in time cannot be read; in the latter case the request stays published |
| MeshHealer.UnreadableIsUnsafe | scripts/deploy/mesh.py:612-613 | a run whose request is published and whose verdict cannot be read: the gate ends UNSAFE at the first attempt |
| MeshHealer.PrivilegedHealer.PublishRequest | scripts/deploy/mesh.py:507-542 | the watched directory only ever shows whole, whitelisted requests; a failure leaves it unchanged |
| MeshHealer.PrivilegedHealer.RestartIstiodFor | scripts/deploy/mesh.py:459-505 | one restart, recorded when it worked |
| MeshHealer.PrivilegedHealer.TriggerHostResettle | scripts/deploy/mesh.py:544-637 | what each branch reports and publishes, an unreadable verdict included |
| MeshHealer.PrivilegedHealer.Heal | scripts/deploy/mesh.py:639-707 | report, published request and restart of one call |
| MeshHealer.HealIs | scripts/deploy/mesh.py:639-707 | with a host-root signal and the trigger installed a request for such a signal and no restart; else with an RBAC signal a restart, reported as it went; else nothing |
| MeshHealer.PrivilegeIsEarned | scripts/deploy/mesh.py:639-707 | for each heal call of a gate run: with the trigger installed and a host-root signal present istiod is not restarted, and a request names a whitelisted signal of the diagnosis it answers |
| MeshHealer.EvaluatePrivileged | scripts/deploy/mesh.py:966-1007 | the whole run on the healer object: the gate's result, the restarts made (none when every diagnosis holds a host-root signal), and a watched directory that gained only answers to this run's diagnoses |
| Certifier.RunKeeps | scripts/deploy/faultinject.py:877-1130 | teardown order, opening and evidence invariants over every event sequence, teardowns that work, fail, or fail without a text |
| Certifier.AlwaysTornDown | scripts/deploy/faultinject.py:836-981 | injection only after a healthy pre-diagnosis; every end, signals and exceptions included, has a teardown after it; a successful teardown is never repeated |
| Certifier.PassIsEarned | scripts/deploy/faultinject.py:984-1130 | PASS implies that an expected signal landed and the case's own criterion held: the declared outcome between two readings of the clock no more than the budget apart, or the audited host-root chain and a healthy look after a teardown of the scaffold that let the case go on |
| Certifier.PassMeansHealed | scripts/deploy/faultinject.py:984-1042 | composed with the gate: PASS on a case expecting HEALED implies the last re-diagnosis was healthy after an unhealthy first one |
| CertifierVerdict.PassIff | scripts/deploy/faultinject.py:1012-1042 | an RBAC or negative-control run that has ended passed if and only if its trace holds a reading, an evaluation with the declared outcome and a reading no more than the budget later; what it recorded is the time between the two |
| CertifierVerdict.ScaffoldPassIff | scripts/deploy/faultinject.py:1045-1130 | a host-root run that has ended passed if and only if its trace holds, one after the other, an evaluation that engaged the host-root tier, the journal record and a teardown that lets the case go on, and later a healthy look to its end |
| CertifierVerdict.GivesUpIff | scripts/deploy/faultinject.py:291-325 | at every check made before the fault has shown, a run gives up if and only if the settle window, counted from the reading after the first look, is over |
| CertifierLimits.PassRestoresIff | scripts/deploy/faultinject.py:942-1130 | a finished PASS is restored, in the host-root case, if and only if the scaffold's teardown worked or, after one that raised with an empty text, the one at the end did; elsewhere if and only if its one teardown, the last event, worked |
| CertifierLimits.PassAfterSilentTeardown | scripts/deploy/faultinject.py:1108-1130 | a host-root PASS after a teardown that raised with an empty text, restored or not as the last teardown went |
| CertifierLimits.PassWithoutRestore | scripts/deploy/faultinject.py:942-981 | a PASS whose only teardown failed |
| CertifierLimits.ScaffoldTiming | scripts/deploy/faultinject.py:1108-1130 | how every passing host-root run spends its time: recovered at the first look, or at one begun before a deadline the first look had pushed back |
| CertifierLimits.AtOnceBound | scripts/deploy/faultinject.py:1108-1130 | a run that recovers at the first look takes at most what was used by then plus one look |
| CertifierLimits.ScaffoldBounds | scripts/deploy/faultinject.py:328-355 | every other passing run stays below the budget plus two looks |
| CertifierLimits.ScaffoldIgnoresBudget | scripts/deploy/faultinject.py:1108-1130 | a host-root run passes however long it took |
| CertifierLimits.OnTimeIff | scripts/deploy/faultinject.py:1108-1130 | all runs recovering at the first look are on time if and only if the time used and one look fit in the budget |
| CertifierLimits.LaterLookPasses | scripts/deploy/faultinject.py:328-355 | a passing run for every length below the budget plus two looks |
| CertifierLimits.OneFaultAtATime | scripts/deploy/faultinject.py:1133-1155 | over several cases every injection follows a healthy diagnosis, with a teardown between any two |
| Bff.RunKeeps | bff/app.py:243-347 | the log, cache and request invariants over every interleaving |
| Bff.CallsCarryTheCaller | bff/app.py:296-347 | each orchestrator call carries a token minted in that same request for that route's scope, its sub equal to the validated inbound sub, both verified with keys the JWKS endpoint gave |
| Bff.RefusedNeverCalls | bff/app.py:243-347 | a request calls at most once, and never after a refusal |
| Bff.KeysAreRecent | bff/auth.py:83-93 | every verification used keys the JWKS endpoint gave, in that request at that moment or in a fetch begun less than the TTL before, even when overlapping fetches finish out of order |
| Bff.StatusIff | bff/app.py:243-273 | exactly when a request ends with 401 (no usable header, a failed key fetch before a token was minted, an inbound token that did not verify), with 502 (the token endpoint's answer bad or blank, a minted token that did not verify to the same subject) and with 500 (a failed key fetch after that, an odd answer of either endpoint, a verification that raised), and that it is refused with nothing else |
| BffProgress.StandsIff | bff/app.py:243-340 | in every interleaving a request is refused if and only if it had a fault, and otherwise stands where its own verifications, exchange and call have brought it |
| BffProgress.ForwardCalls | bff/app.py:275-284 | a request whose minted token was checked and that has not called makes its call at the next Forward, with that token |
| BffProgress.GoodRequestIsForwarded | bff/exchange.py:119-127 | a request with good answers and two tokens that verify to one subject is forwarded |
| Bff.RecheckOutageIs500 | bff/exchange.py:145-155 | a run that ends so by a failed fetch |
| Bff.OddJwksIs500 | bff/auth.py:64-80 | a run that ends so by a JWKS answer that is no object |
| Bff.OddExchangeIs500 | bff/exchange.py:95-115 | a run that ends so by a token endpoint's answer that is no object |
| Bff.RaisingKeysAre500 | bff/auth.py:127-150 | a run that ends so by keys whose use raises |
| Backfill.ListLayer | scripts/backfill_pdf_signature_status.py:194-212 | for every server: some page failed, or the rows are exactly the non-deleted ones of a complete walk, in order and once each; every page is asked for where the last one ended |
| Backfill.ListStableLayer | scripts/backfill_pdf_signature_status.py:194-212 | against any stable list, whatever its page sizes, the walk ends within one page more than there are rows and, unless the transport fails within that many calls, returns exactly the non-deleted rows in order |
| Backfill.WalkSeesAll | scripts/backfill_pdf_signature_status.py:194-212 | against a stable list served in arbitrary non-empty pages a complete walk has seen exactly that list |
| Backfill.ReadChunkOwner | scripts/backfill_pdf_signature_status.py:296-310 | the pages are probed by name in order, only 404 moves on, the last answer decides |
| Backfill.OkHasStatus | scripts/backfill_pdf_signature_status.py:464-499 | a row becomes runnable if and only if its owner guards passed and its own dry run answered 200 with a changed status |
| Backfill.OutcomeIff | scripts/backfill_pdf_signature_status.py:464-499 | exactly when phase 1 ends a row in each of its ways, from the row, the chunk read and the dry run's answer |
| Backfill.AssessRow | scripts/backfill_pdf_signature_status.py:464-499 | the calls made for one row: none when the manifest refuses it, else the probes, and one dry run of its own file exactly when the guards passed |
| Backfill.VerifyPostWrite | scripts/backfill_pdf_signature_status.py:383-424 | posts nothing and passes if and only if the re-read chunk and the re-listed row both show the prediction |
| Backfill.WriteRow | scripts/backfill_pdf_signature_status.py:503-527 | one real POST, its checks, and the report line; a failed check stops the run |
| Backfill.Discover | scripts/backfill_pdf_signature_status.py:215-221 | the affected live rows of complete walks over all layers |
| Backfill.ListsPartition | scripts/backfill_pdf_signature_status.py:438-462 | every affected row found lands in exactly one report list |
| Backfill.CandidatesAre | scripts/backfill_pdf_signature_status.py:438-462 | the candidates and the other owners' rows are exactly the listed rows that are affected and not deleted |
| Backfill.AssessAll | scripts/backfill_pdf_signature_status.py:464-499 | phase 1: the server's log holds exactly each row's probes and dry run, in turn |
| Backfill.ApplyAll | scripts/backfill_pdf_signature_status.py:503-527 | phase 2: exactly the runnable rows are written unless a write stops the run, after which nothing is posted |
| Backfill.RunBackfill | scripts/backfill_pdf_signature_status.py:427-527 | for every server: each POST in its log is one listed candidate's own dry run or write, made by the rules above, with the report line to match; a dry run writes nothing |
| Backfill.WriteIsCleared | scripts/backfill_pdf_signature_status.py:427-527 | before each real POST the log holds the evidence: listed as affected and the caller's, last modified by the caller, own chunk read as the caller's, own dry run 200 with a change |
| Backfill.EveryWriteIsCleared | scripts/backfill_pdf_signature_status.py:224-235 | over the whole log of a run: every POST, dry or real, is for a candidate whose own chunk had been read by then, and names that candidate's own object: its key when it starts with the caller's or the layer's prefix, else the key under both for a private row and under the layer for the others; before a real one the log holds all the evidence |
| Backfill.ShownMeans | scripts/backfill_pdf_signature_status.py:383-424 | what a passed verification has seen, field by field |
| Backfill.AppliedIffShown | scripts/backfill_pdf_signature_status.py:383-424 | "applied" if and only if the write answered the dry run's prediction and chunk and manifest then both showed it; a failed write is reported with its status and the run goes on, another prediction stops it |
| Backfill.EveryDryRunIsGuarded | scripts/backfill_pdf_signature_status.py:464-499 | a row is dry-run if and only if its owner guards passed, and a row the manifest refuses causes no call |
| Replay.MakeScope | scripts/replay_dead_lettered_index.py:87-104 | accepted exactly when one selector is set |
| Replay.LimitReaches | scripts/replay_dead_lettered_index.py:152-171 | a selected row has fewer than LIMIT rows ahead of it, one left out at least LIMIT not behind it |
| Replay.PlanHolds | scripts/replay_dead_lettered_index.py:152-171 | a plan holds only rows the scope asks for, each once and in key order, and all of them when the SELECT stayed below its LIMIT |
| Replay.LeavesOut | scripts/replay_dead_lettered_index.py:152-171 | a legal answer that leaves a row out when LIMIT others do not sort after it |
| Replay.PlanCoversIff | scripts/replay_dead_lettered_index.py:152-171 | every legal plan holds every matching row, however ties of shared keys are broken, if and only if each has fewer than LIMIT dead-lettered rows of any collection not sorting after it |
| Replay.LimitHidesACollection | scripts/replay_dead_lettered_index.py:152-171 | for every LIMIT, that many rows of one collection keep the only row of another out of its own replay |
| Replay.UpdateFrame | scripts/replay_dead_lettered_index.py:188-211 | the UPDATE clears the three columns of exactly the planned rows still dead-lettered and undeleted, changes nothing else, and counts them |
| Replay.RunKeeps | scripts/replay_dead_lettered_index.py:152-211 | under every interleaving of replayers, worker writes and edits: reset counts plus withdrawn plus open events are all events, so each is cleared at most once |
| Replay.AnyTableStarts | scripts/replay_dead_lettered_index.py:152-211 | the conservation law applies from any table |
| Replay.ResetIsOfThePlan | scripts/replay_dead_lettered_index.py:188-211 | a reset row loses the event its plan saw if and only if it was not dead-lettered again in between |
| Replay.ResetAgainIsANewEvent | scripts/replay_dead_lettered_index.py:188-211 | two updates reset one row only if it was dead-lettered again in between |
| Replay.StalePlanResets | scripts/replay_dead_lettered_index.py:188-211 | the race in which a stale plan clears a new dead-lettering |
| Cleanup.Clean | scripts/langfuse-cleanup-noise-traces.py:177-215 | for every server, with deletes taking effect at once, before a later page or never, traces arriving between pages and pages that cannot be fetched: no trace with a user, an input or an output is lost and accepted deletes respect the cap; an exception leaves the run exactly when a page failed; with prompt deletes and no arrivals a run that ends leaves the swept store, and nothing deleted if and only if no noise was there; a dry run counts exactly |
| Cleanup.Fetch | scripts/langfuse-cleanup-noise-traces.py:118-127 | one page, after whatever settled and arrived; nothing worth keeping goes |
| Cleanup.SweepPage | scripts/langfuse-cleanup-noise-traces.py:186-211 | one page of the loop |
| Cleanup.DeleteNoise | scripts/langfuse-cleanup-noise-traces.py:139-145 | one delete removes that trace and no other |
| Cleanup.TallyCounts | scripts/langfuse-cleanup-noise-traces.py:195-207 | what the three counters count |
| Cleanup.NoNoiseIff | scripts/langfuse-cleanup-noise-traces.py:130-136 | no noise is left if and only if every trace has a user, an input or an output |
| Cleanup.SweepKeepsWorth | scripts/langfuse-cleanup-noise-traces.py:177-215 | traces with a user or content stay, in order |
| Cleanup.SweepHalvesNoise | scripts/langfuse-cleanup-noise-traces.py:177-215 | one run removes at least half of the noise |
| Cleanup.SweepClearsIff | scripts/langfuse-cleanup-noise-traces.py:177-215 | one run clears the store if and only if no page that loses d traces has noise among the next d |
| Cleanup.NoiseAloneIsHalved | scripts/langfuse-cleanup-noise-traces.py:177-215 | when everything is noise exactly half survives |
| Cleanup.RepeatedRunsClear | scripts/langfuse-cleanup-noise-traces.py:177-215 | n runs clear any store with fewer than 2^n noise traces and leave exactly the rest |
| BuildRecord.SplitIff | scripts/deploy/build_record.py:136-154 | the splitter returns (block, body) if and only if the text is their join after leading newlines and the block holds no closing delimiter |
| BuildRecord.LStripIs | scripts/deploy/build_record.py:145-145 | exactly the leading newlines are tolerated |
| BuildRecord.NamingIsIdempotent | scripts/deploy/memory.py:371-392 | extension and outcome tag are added once; a tagged name takes no second tag |
| BuildRecord.LeafIs | scripts/deploy/memory.py:371-392 | the leaf of a name and an outcome, spelled out; refused exactly for an outcome that is not one of the four |
| BuildRecord.LastSegment | scripts/deploy/memory.py:701-701 | the part after the last slash |
| BuildRecord.SameObjectIff | scripts/deploy/memory.py:701-713 | for every key a server may answer: the second upload targets the first one's object if and only if the key's last segment (or the stamp, when that is empty) is the first leaf or the name its outcome tag was added to, each with or without its extension |
| BuildRecord.NamedObjectIff | scripts/deploy/memory.py:701-713 | on a server whose key ends in the leaf: if and only if the leaf is a single path segment |
| Dicts.UpdateIs | scripts/deploy/build_record.py:218-218 | an update overwrites the named fields, keeps the others and their order |
| BuildRecord.PatchIs | scripts/deploy/build_record.py:191-224 | a patched record splits back to the same body and the updated fields; only a record without front matter fails |
| BuildRecord.PatchLastWins | scripts/deploy/build_record.py:191-224 | patching the same fields again is as if only the last patch had been made |
| BuildRecord.ValidateBuildRecord | scripts/deploy/build_record.py:245-293 | accepts if and only if every required field is present, non-empty and, unless exempt, no placeholder |
| BuildRecord.ProblemIff | scripts/deploy/build_record.py:226-243 | exactly when a field is a problem: nothing there, or "pending" in any capitals in one of the two self-referential ones that is not exempt |
| BuildRecord.RevalidationIff | scripts/deploy/memory.py:690-700 | after the patch validation passes if and only if the learned key and status are non-blank and neither reads "pending" |
| BuildRecord.LogDeployRecord | scripts/deploy/memory.py:514-595 | one upload and one index under the server's key; nothing sent without token or with a bad outcome |
| BuildRecord.LogBuildRecord | scripts/deploy/memory.py:615-717 | on a normal return the second upload targets the first one's object exactly as above and the stored text splits back to the caller's body and fields with only the two learned values replaced; a late validation failure leaves the first copy stored |
| BuildRecord.PendingNamesNeverComplete | scripts/deploy/memory.py:690-700 | a leaf reading "pending" can never complete on a server that keeps the leaf |
| BuildRecord.PendingExample | scripts/deploy/memory.py:690-700 | one such name |
| Chunking.ChunkText | scripts/index-chromadb.py:62-76 | the loop terminates and returns the specified windows |
| Chunking.ChunkIff | scripts/index-chromadb.py:62-76 | the chunks are exactly the pieces of the given size, one every size minus overlap characters, that hold a visible character; a text that fits is its own |
| Chunking.WindowCount | scripts/index-chromadb.py:62-76 | ceil(len/(size-overlap)) windows |
| Chunking.WindowsRebuild | scripts/index-chromadb.py:62-76 | dropping each later window's overlap rebuilds the text |
| Chunking.WholeIff | scripts/index-chromadb.py:62-76 | in a longer text all passages of a length stay whole if and only if the length is at most overlap + 1 |
| Chunking.PassageIsKept | scripts/index-chromadb.py:62-76 | every non-blank passage of at most overlap + 1 characters is whole in a kept chunk |
| Chunking.RawIdDetermines | scripts/index-chromadb.py:107-110 | the text that is hashed determines source and chunk number |
| Chunking.DigitsDenote | scripts/index-chromadb.py:107-110 | chunk and page numbers are printed in decimal |
| Chunking.SourceNamesItsFile | scripts/index-chromadb.py:391-418 | no two files share an id source, page or text |
| Chunking.DocIff | scripts/index-chromadb.py:384-420 | a document is in the collection if and only if it is a chunk of a page of a PDF or of another indexable, non-blank file, under the id of its own text and number |
| Chunking.BuildKnowledgeDocs | scripts/index-chromadb.py:364-420 | the nested loops build every chunk once, and all pre-hash ids of a collection are distinct |
| DeviceFlow.PollsAre | scripts/deploy/acl_e2e_device_mint.py:235-262 | polls start inside the window, all but an answering last one were told to go on, and the loop stops at the first round that is not |
| DeviceFlow.PollsOnIff | scripts/deploy/acl_e2e_device_mint.py:235-262 | the next round inside the window polls again if and only if the answer was "authorization_pending" or "slow_down", and the latter makes every later wait five seconds longer |
| DeviceFlow.StartIs | scripts/deploy/acl_e2e_device_mint.py:220-234 | when the loop is entered, its first wait and its window, with their defaults |
| DeviceFlow.PollBudget | scripts/deploy/acl_e2e_device_mint.py:235-262 | the waits before the last poll fit in the window; with a positive interval at most ceil(expires_in/interval) polls, and the run ends |
| DeviceFlow.ZeroIntervalIsUnbounded | scripts/deploy/acl_e2e_device_mint.py:304-307 | zero passes the check and then nothing bounds the polls |
| DeviceFlow.Stores.Persist | scripts/deploy/acl_e2e_device_mint.py:171-188 | the second file is touched only after the first was written |
| DeviceFlow.Mint | scripts/deploy/acl_e2e_device_mint.py:195-262 | the n-th wait is the interval plus 5 per earlier slow_down; each exit, an exception of the HTTP call included; success means both stores hold the last answer's token; every exit but a write failure leaves both untouched |
| DeviceFlow.Finish | scripts/deploy/acl_e2e_device_mint.py:265-293 | the exit and the stores after a granting answer |

## Left out

- RealmSplice.PatchLastWins: the two conditions make every splice land on its span (FilledSpans is exact); texts that coincide although a splice landed elsewhere are not characterised.
- RealmSplice.PatchFrames: for documents that hold both members at the first occurrence of their keys; other documents are covered only by the matcher's own contract.
- Json numbers: a number is any text of the number grammar; float formatting is not modelled.
- Dedup.JaccardFacts: similarity is a real quotient, not a rounded float; dedup is not idempotent and is not claimed to be.
- CuratorPipeline.CuratorRunner.Run: the recall verification and self-log phases, the report and the exit codes come after the promotion calls and are left out; the tag patterns, link, marker and date extraction are arbitrary functions, the date one of the record's place as well, since a record without a creation time is stamped with the clock.
- MeshHealer.AwaitVerdict: speaks of waits that end (WaitEndsIff says which); an exception while waiting between two looks is not modelled.
- Mesh.Evaluate: diagnoses and heal reports are arbitrary sequences; kubectl output parsing before the evaluate functions is not modelled.
- Certifier.AlwaysTornDown: the shared CaseResult is part of the machine's state rather than an object, a teardown and setting its flag are one step, and a signal inside a running teardown or outside the armed block is not modelled.
- Certifier.RunKeeps: capturing the journal cursor and reading the journal are one answer (the unit fired or not).
- Bff.StatusIff: whatever raises outside the handlers is one kind of answer, or one kind of verification result; what a forwarded call comes to (the orchestrator's own status, or a 502 when it cannot be reached) is not modelled.
- Bff.CallsCarryTheCaller: header parsing, signature verification and the token endpoint are arbitrary functions; the clock is an integer that does not go back; each proxy module is one forward action.
- Backfill.ListLayer: the transport lets a finite number of calls through and then fails, so that a list growing for ever does not keep the walk running; for a stable list the bound is ListStableLayer's own.
- Backfill.RunBackfill: sleeping, trace ids and error texts are left out; the report rows are values, not objects updated in place; chunk names are an arbitrary function instead of a hash.
- Replay.RunKeeps: the database statements are atomic; rows are not removed during a run; the key-to-collection routing is an arbitrary function.
- Cleanup.Clean: a finite number of traces arrives during a run, none changes, and a page is a slice of the store at that moment; what a run with arrivals leaves of the noise is not stated.
- BuildRecord.PatchIs: YAML is a pair of functions of which only the round trip, the absent delimiter and unique names are assumed; lower-casing is modelled on ASCII letters.
- BuildRecord.LogBuildRecord: a record given as a path is read once; multipart encoding, the fleet header and recall quarantine are left out.
- Chunking.BuildKnowledgeDocs: ids are compared before the truncated SHA-256; PDF extraction and file decoding are inputs; the decisions and skills builders are left out.
- DeviceFlow.Mint: a run is given a finite number of rounds and reports when they run out; the claims summary and messages are left out.
- `scripts/deploy/verify.py`, the CI gates, the regex scanners, the other proxies and the reports would only add members that can be read off their bodies.
