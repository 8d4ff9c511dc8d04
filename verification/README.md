# Synchrotron, modelled and verified in Dafny

Synchrotron is a GitOps controller. This project models its deterministic cores and proves what they keep over
all inputs, all runs and all behaviours of the outside world. `dafny verify dfyconfig.toml` checks everything.

- **Structural diff.** `Yaml`, `ListMap`, `Compare` (the diff as a function of two trees), `CompareLoops` (the source's
  recursive loops and the `matched_live` array, proved to compute it), `CompareSpec` (a container seen as one group of
  children per path segment), `CompareLaws`, `EditScript` (the diff carried out), `ManifestDiff`, `ScriptLimits` (exactly
  when carrying it out suffices), `DiffReaders` (what any reader of a diff can recover), `ListRules` (which lists are keyed
  and by what, read off the registry) and `DefaultRules` (the built-in registry).
- **Plan, waves, execution.** `Manifests`, `ManifestBodies` (FNV-1a and hash-first equality), `Ordering`, `Plan`,
  `KindOrder`, `KindRanks` (the order written out), `Waves`, `WaveReading` (which wave a manifest is in), `PlanOrder` (when
  input order shows), `WaveRun` (the executor against an arbitrary applier, health checker and clock), `WaveLaws` and
  `WaveHandover` (what is handed over and what becomes of the cluster).
- **Render cache.** `Recency` (recency lists as sequences), `ByteCounting` (with the saturating byte counter), `AppCache`,
  `AppRenderer`.
- **Event throttling.** `Debounce` and `DebounceQuiet` (trailing edge, a protocol of enqueues, wake-ups and flushes),
  `Coalesce` (leading edge).
- **Server-sent events.** `Sse` (the incremental parser, chunk by chunk) and `SseLines` (the format it reads).
- **Drift pipeline.** `Pointer`, `Ownership`, `Ignore`, `Scaler`, `Pipeline`, `FieldsV1` (how ownership is spelled) and
  `DriftMeaning` (what rules and owners make of a change).
- **Host keys.** `Base64`, `HostLines` (the known_hosts text format), `HostAppend` (what a file must end in), `KnownHosts`,
  `HostMeaning` (what lines say, and the verdict of a file's text) and `HostTrust` (trust on first use over whole runs).
- `Common` and `Text` hold what these share.

Objects the source updates in place are classes; algorithms with loops are methods proved against a function; the
properties are lemmas about those functions. Hash iteration order is modelled by an arbitrary pick of the next key.

## Where code and documentation disagree

The model follows the code.

- `listmap.rs` says all its workload kinds expose the same nested pod specification; that of a cron job is one level
  deeper, and no built-in pattern reaches it (`DefaultRules.ContainersKeyedIff`).
- `wave.rs` says the Argo CD key is read only when the preferred key is absent; the code also falls back to it when the
  preferred annotation does not parse as a wave.
- `wave.rs` says the entries of a wave have no defined order; `group_into_waves` sorts them, and
  `PlanOrder.PlanningIsDeterministic` rests on that.
- `plan.rs` credits the hash map with deterministic iteration; it has none, and determinism comes from the final sort
  (`Plan.PlanIsUnique`). It promises that input order never matters; it does when two manifests of one identity do not
  compare equal, and only then (`PlanOrder.DesiredOrderInvisibleIff`, `PlanOrder.LiveOrderInvisibleIff`).
- `ManifestBody` equality is documented to fall back to the parsed values; a difference in the bytes that changes the
  hash is decided before that (`ManifestBodies.EqualValuesNeedEqualHashes`).
- `debounce.rs` calls its generation check race-free; generations restart at 1 when an entry is removed, so a timer that
  outlives its entry can fire a later one early (`DebounceQuiet.StepKeepsQuietIff` says which steps leave one).
- `ownership.rs` speaks of fields owned exclusively by others; the code asks only who is listed first
  (`Ownership.SharedFieldIsDriftIff`).
- The command line's `client.rs` follows section 9.2 of the WHATWG HTML standard except that it dispatches a message with
  only an event or an id, and adds no newline after an empty first data line (`Sse.CrossesUnchangedIff`).
- `known_hosts.rs` promises to verify forever after first use. It does if and only if the key type is one its parser
  lists, the key is not empty, and every lookup name of the host has such an entry (`HostTrust.VerifiedForeverIff`). A
  key of the type the git client calls `ssh-unknown` is written and dropped by the next load, on every port
  (`HostTrust.UnlistedTypeIsForgotten`); on a port other than 22, while one name has no entry, a first contact of that
  name adds a second accepted key.

## Model

| member | source | states |
|---|---|---|
| `CompareLoops.WalkValue` | crates/synchrotron-diff/src/compare.rs:106-161 | the recursive descent pushes into the shared change list exactly the changes the declarative diff has for the two trees, after whatever the list held |
| `CompareLoops.WalkListMap` | crates/synchrotron-diff/src/compare.rs:189-233 | the marking loop over the `matched_live` array and the closing loop push: for each desired element the diff against the live element that is the same occurrence of the same key tuple (or Added), then Removed for every live occurrence desired does not reach |
| `CompareLoops.WalkElement` | crates/synchrotron-diff/src/compare.rs:199-220 | one pass of the marking loop: the first unmarked live element with the key tuple is occurrence k, and after marking it the marked elements are again those whose occurrence number has been reached |
| `CompareLoops.WalkPositional` | crates/synchrotron-diff/src/compare.rs:163-187 | plain lists are compared position by position, the surplus of either side Added or Removed |
| `CompareLoops.WalkFields` | crates/synchrotron-diff/src/compare.rs:113-132 | mappings: desired keys in order, then the live keys desired lacks |
| `CompareSpec.Decompose` | crates/synchrotron-diff/src/compare.rs:106-233 | the changes at or below any one segment are exactly the pairwise changes of the two groups standing there, for mappings, plain lists and registered lists, duplicates included |
| `CompareLaws.EmptyIffEquivalent` | crates/synchrotron-diff/src/compare.rs:106-245 | the diff is empty if and only if the declarative equivalence holds (keywise, pointwise, k-th occurrence of each key tuple); no uniqueness assumed |
| `CompareLaws.EquivalentReflexive` | crates/synchrotron-diff/src/compare.rs:101-104 | every tree is equivalent to itself |
| `CompareLaws.EquivalentSymmetric` | crates/synchrotron-diff/src/compare.rs:101-104 | the equivalence is symmetric |
| `CompareLaws.EquivalentTransitive` | crates/synchrotron-diff/src/compare.rs:101-104 | the equivalence is transitive |
| `CompareLaws.MirrorLaw` | crates/synchrotron-diff/src/compare.rs:106-233 | swapping the sides gives the same multiset of changes with Added and Removed exchanged and the sides of Modified swapped |
| `CompareLaws.PathsNeverNest` | crates/synchrotron-diff/src/compare.rs:106-233 | with unique list keys no reported path equals or extends another |
| `EditScript.ScriptSuffices` | crates/synchrotron-diff/src/compare.rs:106-233 | carrying out the reported changes on the live tree gives a tree equivalent to the desired one, for every desired tree, duplicates in it included, as long as no registered list of the live tree repeats a key tuple |
| `ScriptLimits.ScriptSufficesIff` | crates/synchrotron-diff/src/compare.rs:106-233 | for every live tree with plain keys: the reported changes suffice for every desired tree if and only if no registered list in the live tree, however deep, repeats a key tuple |
| `ScriptLimits.DuplicatesAllGo` | crates/synchrotron-diff/src/compare.rs:200-232 | why: asked to keep one of several live elements of one key tuple, at any path and whatever the elements, a script read by path removes all of them |
| `ScriptLimits.TwoOfAKey` | crates/synchrotron-diff/src/compare.rs:200-232 | the smallest failing input: desired `[x]`, live `[x, y]` of one key tuple, mappings included |
| `DiffReaders.ReadableIff` | crates/synchrotron-diff/src/compare.rs:106-233 | no way of reading helps: for every live tree with plain keys whose registered lists hold mappings, some function of the live tree and the changes recovers every desired tree if and only if no registered list of the live tree repeats a key tuple |
| `DiffReaders.TwinsConfuse` | crates/synchrotron-diff/src/compare.rs:200-232 | the failing inputs: of two live elements of one key tuple, a field added to the first or to the second gives the same changes for two desired lists that are not equivalent |
| `ManifestDiff.StripExact` | crates/synchrotron-diff/src/compare.rs:265-283 | stripping removes `status` and the six server-owned metadata keys, and leaves every other key of the body and of its metadata as it was |
| `ManifestDiff.Strip` | crates/synchrotron-diff/src/compare.rs:265-283 | the in-place removal on the clone produces that stripped body |
| `ManifestDiff.RunDiff` | crates/synchrotron-diff/src/compare.rs:86-99 | `diff` computes the declarative diff of the two stripped bodies under the desired side's GVK (what makes a list keyed and what its elements are paired by: the `ListRules` rows) |
| `ManifestDiff.ManifestsEquivalent` | crates/synchrotron-diff/src/compare.rs:101-104 | returns true if and only if the stripped bodies are equivalent |
| `ManifestDiff.DiffIsSufficient` | crates/synchrotron-diff/src/compare.rs:86-99 | for whole manifests: applying the reported diff to the stripped live body gives the stripped desired one up to equivalence, as long as no registered list of the stripped live body repeats a key tuple |
| `ScriptLimits.DiffSufficesIff` | crates/synchrotron-diff/src/compare.rs:86-99 | for every live manifest with plain keys: its diffs suffice for every desired body if and only if no registered list of its stripped body repeats a key tuple |
| `ManifestDiff.StrippedNeverReported` | crates/synchrotron-diff/src/compare.rs:265-283 | no change is ever reported at or below `status` or a server-owned metadata key |
| `ListRules.KeysForExactly` | crates/synchrotron-diff/src/listmap.rs:176-202 | over the fields of the registry: a list is keyed by the keys of the first rule that fits its path among the universal rules, then those of the exact kind, then those of the kind with version `*`; it is a plain list if and only if none fits |
| `ListRules.FitsBySegments` | crates/synchrotron-diff/src/listmap.rs:205-239 | a rule fits a path if and only if its pattern has as many dotted parts as the path has segments, each part `*` or the name of the field there |
| `ListRules.PairedByAllKeys` | crates/synchrotron-diff/src/compare.rs:189-263 | two elements of a keyed list meet if and only if all their key fields have the same text: a string itself, a number, boolean or null as written, an absent field nothing; else one is Added and the other Removed under its own texts |
| `Yaml.GetIs` | crates/synchrotron-diff/src/managed_fields.rs:32-44 | only a mapping has fields, and reading one gives the value of its one entry |
| `ListRules.DiffAtFields` | crates/synchrotron-diff/src/compare.rs:106-161 | what is reported at or below a path of fields is the diff of the two values found there |
| `ListRules.ReorderReportsNothing` | crates/synchrotron-diff/src/compare.rs:86-99 | for whole manifests: when the first rule that fits a list, of the exact version or of any, tells its elements apart, putting them in another order reports nothing there |
| `DefaultRules.Defaults` | crates/synchrotron-diff/src/listmap.rs:63-165 | the nested loops register all pod patterns for each of the seven workload kinds under version `*`, the service rule and the two universal rules, and nothing else |
| `DefaultRules.ContainersKeyedIff` | crates/synchrotron-diff/src/listmap.rs:80-148 | in the built-in registry the containers of a workload of a listed kind, in any version, are told apart by name if and only if the kind is not `CronJob` |
| `DefaultRules.JobTemplateIsPlain` | crates/synchrotron-diff/src/listmap.rs:80-148 | why: no list anywhere below `spec.jobTemplate` of a cron job is keyed, though the kind is registered |
| `DefaultRules.SwapInJobTemplateIsReported` | crates/synchrotron-diff/src/listmap.rs:80-148 | the effect: two elements of such a list that differ are reported when they merely change places |
| `ListMap.ElementBlind` | crates/synchrotron-diff/src/listmap.rs:176-239 | which key fields a list has depends only on the shape of its path: which list element one descends through never matters (which rule decides: `ListRules.KeysForExactly`) |
| `Pointer.PathToJsonPointer` | crates/synchrotron-diff/src/ignore.rs:119-136 | the loop writes the rendering of the path, one escaped token per segment |
| `Pointer.TokenRoundTrip` | crates/synchrotron-diff/src/ignore.rs:138-140 | decoding `~1` before `~0` (section 4 of RFC 6901) undoes the escaping of every string, and an escaped token holds no slash |
| `Pointer.PointerRoundTrip` | crates/synchrotron-diff/src/ignore.rs:119-136 | splitting and unescaping a rendered path returns its token list |
| `Pointer.RenderInjectiveOnTokens` | crates/synchrotron-diff/src/ignore.rs:119-140 | two paths render alike if and only if their token lists are equal |
| `Ignore.PointerRuleExact` | crates/synchrotron-diff/src/ignore.rs:95-98 | a pointer rule made from a path matches exactly the changes whose path has the same tokens |
| `Ignore.Matches` | crates/synchrotron-diff/src/ignore.rs:90-113 | true if and only if some rule of the bundle matches the change |
| `Ignore.Apply` | crates/synchrotron-diff/src/ignore.rs:78-88 | keeps, in order, exactly the changes no rule matches; the shortcut for an empty bundle agrees |
| `Ignore.ExtendIsSequence` | crates/synchrotron-diff/src/ignore.rs:67-69 | applying an extended bundle equals applying the two bundles one after the other, in either order |
| `DriftMeaning.GlobRuleExact` | crates/synchrotron-diff/src/ignore.rs:146-170 | a glob rule matches exactly the paths with as many segments as it has dotted parts, each `*` for any segment or the name of a field; the empty glob only the root |
| `DriftMeaning.PointerRuleSpelled` | crates/synchrotron-diff/src/ignore.rs:119-140 | a pointer rule matches only paths its decoded tokens spell: a field by name, an index in digits, a keyed element by its first key text; and the rendering of a path matches it |
| `DriftMeaning.ManagerRuleExact` | crates/synchrotron-diff/src/ignore.rs:95-98 | a manager rule matches exactly the changes to paths that an entry of one of its managers agrees with |
| `Ownership.OwnsIff` | crates/synchrotron-diff/src/managed_fields.rs:67-105 | the recursive walk succeeds if and only if the root is a mapping and following the path either completes or reaches an empty or non-mapping child (which text a segment is looked up under: `FieldsV1.OwnsByEntry`) |
| `Ownership.OwnedPrefixes` | crates/synchrotron-diff/src/managed_fields.rs:67-105 | an owner of a path owns every prefix of it |
| `FieldsV1.SpelledInjective` | crates/synchrotron-diff/src/managed_fields.rs:74-90 | the spelling of a segment, `f:` and the name, `i:` and the digits, or `k:` and the key fields in braces and quotes, tells any two segments free of quotes apart |
| `FieldsV1.OwnsByEntry` | crates/synchrotron-diff/src/managed_fields.rs:67-105 | in any tree a node owns a path if and only if its entry with the literal spelling of the first segment is no mapping, an empty one, or owns the rest |
| `FieldsV1.TreeOwnsIff` | crates/synchrotron-diff/src/managed_fields.rs:67-105 | the tree that lists one path, written out with those spellings, owns exactly the paths that agree with it as far as the shorter goes, for all three kinds of segment |
| `FieldsV1.OwnerIsFirstClaim` | crates/synchrotron-diff/src/managed_fields.rs:32-56 | reading `metadata.managedFields`: the owner of a path is the first entry with a manager and a field tree whose listed path agrees with it, none if none does |
| `FieldsV1.OwnedByAnyIff` | crates/synchrotron-diff/src/managed_fields.rs:58-64 | some of the given managers owns a path if and only if an entry of one of them agrees with it, wherever it stands |
| `Ownership.SubtreeOwned` | crates/synchrotron-diff/src/managed_fields.rs:92-104 | a child that stands for its whole subtree owns every extension of its path |
| `Ownership.FirstOwnerIs` | crates/synchrotron-diff/src/managed_fields.rs:49-56 | the owner is the first listed manager whose walk succeeds; none if no walk does |
| `Ownership.PartitionByOwner` | crates/synchrotron-diff/src/ownership.rs:57-73 | the loop sends each change, in order, to drift when it has no owner or our manager comes first, else to informational |
| `Ownership.SharedFieldIsDriftIff` | crates/synchrotron-diff/src/ownership.rs:57-73 | a change to a field our manager owns counts as drift if and only if no earlier listed manager owns it too |
| `Pipeline.Evaluate` | crates/synchrotron-diff/src/pipeline.rs:86-110 | computes the tiers of normalization, raw diff, automatic rules, user rules and ownership; the next rows say what lands in which |
| `Pipeline.TiersAreVerdicts` | crates/synchrotron-diff/src/pipeline.rs:96-109 | drift and informational are the raw changes with that verdict, in raw order |
| `Pipeline.VerdictsPartition` | crates/synchrotron-diff/src/pipeline.rs:96-109 | every raw change gets exactly one of the four verdicts, multiplicities kept |
| `DriftMeaning.FirstClaimDecides` | crates/synchrotron-diff/src/ownership.rs:57-73 | a change no rule ignores is drift if the first managed-fields entry whose listed path agrees with its own is ours or there is none, and informational if it is another manager's |
| `DriftMeaning.AutoscaledIsUnreported` | crates/synchrotron-diff/src/pipeline.rs:96-109 | while a source claims the live object, a change at a path one of its globs fits is neither drift nor informational |
| `DriftMeaning.UnclaimedIsReported` | crates/synchrotron-diff/src/auto_ignore.rs:130-142 | once no source claims the live object there is no automatic rule for it |
| `Pipeline.EquivalentNeverDrifts` | crates/synchrotron-diff/src/pipeline.rs:86-110 | two equivalent manifests give an empty result under every rule set and ownership |
| `Pipeline.DiscoveryOrderNeverShows` | crates/synchrotron-diff/src/pipeline.rs:96-109 | however the three discovery streams interleave and in whatever hash order the cache is rebuilt, every evaluation gives the same drift and the same informational changes in the same order |
| `Scaler.ScalerDiscovery.HandleEvent` | crates/synchrotron-kube/src/scaler_discovery.rs:240-308 | an event updates the source map as stated and leaves the shared cache equal to the grouping of the sources by target |
| `DriftMeaning.HandledSource` | crates/synchrotron-kube/src/scaler_discovery.rs:240-308 | what an event makes of the claim under a controller, namespace and name: applied sets it, or removes it when unreadable; deleted removes it; a relist keeps the last readable object of that name and drops the rest; others stay |
| `Scaler.ScalerDiscovery.RebuildCache` | crates/synchrotron-kube/src/scaler_discovery.rs:310-319 | whatever the hash order, the rebuilt cache groups the present sources by target |
| `Scaler.InsertedGroups` | crates/synchrotron-diff/src/auto_ignore.rs:95-124 | after any inserts the entries of a target are the inserted ones for it, in order |
| `Scaler.OtherPartitionsKept` | crates/synchrotron-kube/src/scaler_discovery.rs:249-305 | an event, a relist included, touches only its own controller's partition |
| `Scaler.OwnPartitionAlone` | crates/synchrotron-kube/src/scaler_discovery.rs:249-305 | what an event makes of its partition depends on that partition alone |
| `Scaler.InterleavingIrrelevant` | crates/synchrotron-kube/src/scaler_discovery.rs:240-308 | any two interleavings of the same three streams end with the same sources |
| `Scaler.CacheUpToOrder` | crates/synchrotron-kube/src/scaler_discovery.rs:310-319 | caches built from the same sources hold the same entries per target, up to order |
| `Scaler.AutoIgnoreRulesFor` | crates/synchrotron-diff/src/auto_ignore.rs:130-142 | one glob rule per ignored path of each entry of the target, in order |
| `Scaler.RulesUpToOrder` | crates/synchrotron-diff/src/auto_ignore.rs:130-142 | the order in which entries are cached does not change which rules a target gets |
| `Plan.SortKeyLaws` | crates/synchrotron-reconcile/src/plan.rs:43-51 | the sort key is a total order and injective: it compares equal only for one and the same resource |
| `Plan.SortKeyIs` | crates/synchrotron-reconcile/src/plan.rs:43-51 | what the order is: by group, version, kind, namespace (none first) and name, texts compared at their first difference |
| `Plan.PlanOfManifests` | crates/synchrotron-reconcile/src/plan.rs:33-164 | every list that plans the two indexes plans the two slices in that sense |
| `Ordering.CmpStringIs` | crates/synchrotron-reconcile/src/plan.rs:43-51 | texts are ordered by the first character that differs, a prefix before its extensions |
| `Plan.MakePlan` | crates/synchrotron-reconcile/src/plan.rs:125-164 | over the two slices, for every hash iteration order: one entry for the kind, namespace and name of every manifest, in ascending order; it is a NoOp if and only if desired's last manifest of those has a body equal to that of live's last, a Delete if and only if desired has none, else an Apply |
| `Plan.PlanIsUnique` | crates/synchrotron-reconcile/src/plan.rs:125-164 | there is only one such list: hash order never shows |
| `Plan.NothingToDoIff` | crates/synchrotron-reconcile/src/plan.rs:125-164 | a plan has no changes if and only if both sides hold the same resources, each with equal hashes and equal parsed values |
| `PlanOrder.EqualBodiesPlanAlike` | crates/synchrotron-reconcile/src/plan.rs:125-164 | replacing bodies of either side by ones that compare equal, byte for byte or not, changes no plan |
| `PlanOrder.IndexIgnoresOrderIff` | crates/synchrotron-reconcile/src/plan.rs:126-133 | every reordering of a slice gives the same index by identity if and only if manifests of one identity have one body |
| `PlanOrder.DesiredOrderInvisibleIff` | crates/synchrotron-reconcile/src/plan.rs:72-75 | the order of the desired slice never shows in a plan, whatever is live, if and only if its manifests of one identity compare equal |
| `PlanOrder.LiveOrderInvisibleIff` | crates/synchrotron-reconcile/src/plan.rs:72-75 | the order of the live slice never shows in a plan, whatever is desired, if and only if its manifests of one identity compare equal |
| `Plan.RestartPlansTheRest` | crates/synchrotron-reconcile/src/plan.rs:125-164 | planning again after any subset of the changes was carried out finds exactly the changes not carried out, in order |
| `Plan.ChangesDrop` | crates/synchrotron-reconcile/src/plan.rs:88-95 | the number of changes strictly drops when anything was applied, and is zero once everything was |
| `KindOrder.WithinWaveLawful` | crates/synchrotron-reconcile/src/kind_order.rs:102-129 | the within-wave comparator is a total preorder, so a stable sort by it is well defined |
| `KindOrder.TiesExactly` | crates/synchrotron-reconcile/src/kind_order.rs:102-129 | two entries tie if and only if they agree on being a delete, on kind, namespace and name (the group and version are not compared) |
| `KindRanks.WithinWaveIsRankOrder` | crates/synchrotron-reconcile/src/kind_order.rs:20-129 | the comparator is exactly: applies before deletes, then the rank of the kind in the written-out list (unlisted kinds between access control and `Service`), descending for deletes, then kind, namespace (none first) and name |
| `KindRanks.WaveFollowsTheRanks` | crates/synchrotron-reconcile/src/kind_order.rs:102-129 | in every wave of every wave plan no entry stands before one that this order puts before it |
| `Ordering.StableSortSorts` | crates/synchrotron-reconcile/src/kind_order.rs:102-129 | sorting orders the entries, permutes them and keeps ties in their order |
| `Ordering.StableSortUnique` | crates/synchrotron-reconcile/src/kind_order.rs:102-129 | a stable sort has only one possible result, so any implementation agrees with the model's |
| `Waves.WaveRoundTrip` | crates/synchrotron-reconcile/src/wave.rs:68-90 | a 32-bit wave written as a string or as an integer is read back unchanged |
| `Waves.ArgoWaveRoundTrip` | crates/synchrotron-reconcile/src/wave.rs:68-90 | an Argo CD wave is read back unchanged whenever the preferred key yields no wave, absent or unreadable |
| `WaveReading.WaveIsRead` | crates/synchrotron-reconcile/src/wave.rs:68-90 | the wave of any object: what its `synchrotron.io/sync-wave` annotation says, else what Argo CD's says, else 0; a text says its 32-bit number, white space around it, an integer of 64 bits is brought into 32 |
| `WaveReading.SaidOnce` | crates/synchrotron-reconcile/src/wave.rs:68-90 | an annotation says at most one wave |
| `WaveReading.EntriesStandInTheirWaves` | crates/synchrotron-reconcile/src/wave.rs:119-149 | over the two slices: every entry stands in the group of the wave read from desired's last manifest of its resource, else from live's first, and the groups hold nothing else |
| `Waves.FirstLiveFillsIn` | crates/synchrotron-reconcile/src/wave.rs:119-128 | the manifest that decides a resource's wave: desired's last one, and only without one live's first, identities repeated or not |
| `Waves.GroupIntoWaves` | crates/synchrotron-reconcile/src/wave.rs:119-149 | for every hash iteration order: ascending waves, one group per wave number in use, each stably sorted by the within-wave comparator; the wave comes from the indexed desired manifest or else live's first |
| `Waves.WavePlanIsUnique` | crates/synchrotron-reconcile/src/wave.rs:119-149 | there is only one such wave plan |
| `Waves.WavesConserveEntries` | crates/synchrotron-reconcile/src/wave.rs:119-149 | the waves hold exactly the plan's entries, multiplicities kept |
| `Waves.WavesRespectDependencies` | crates/synchrotron-reconcile/src/kind_order.rs:102-129 | in every wave of every wave plan: applies before deletes, lower-priority kinds applied earlier and deleted later |
| `PlanOrder.PlanningIsDeterministic` | crates/synchrotron-reconcile/src/wave.rs:119-149 | when on each side manifests of one identity compare equal, reordering either input changes neither the plan nor the waves |
| `WaveRun.ExecuteWaves` | crates/synchrotron-reconcile/src/wave.rs:249-323 | for every applier, health checker and clock: the log is a run of the waves in that setting (what each call hands over: `WaveHandover`), every logged answer being the one the applier or checker gave to that numbered call, at the time the clock gave; Ok lists every wave as completed |
| `WaveRun.AwaitHealthy` | crates/synchrotron-reconcile/src/wave.rs:298-320 | adds polls that each carry the checker's answer to that call, an interval after the one before, and ends at the first that is Healthy or answered at or past the deadline |
| `WaveRun.ApplyChanged` | crates/synchrotron-reconcile/src/wave.rs:274-290 | hands the changed entries to the applier in order, each with its manifest (`WaveHandover.HandsOverTheRightManifest`), logs the applier's answers, and stops at the first refusal |
| `WaveRun.ExecuteWave` | crates/synchrotron-reconcile/src/wave.rs:273-322 | one wave: its log is a genuine wave run, and the error returned is the one its last event means |
| `WaveLaws.RunIsUnique` | crates/synchrotron-reconcile/src/wave.rs:249-323 | the waves, the applier, the checker, the clock, the configuration and the two slices determine the whole run: any two runs are the same events at the same times with the same outcome |
| `WaveLaws.ApplierSeesPrefix` | crates/synchrotron-reconcile/src/wave.rs:274-290 | the applier is handed a prefix of the changed entries in wave order and accepts a prefix of them; all of them when the run succeeds |
| `WaveLaws.HealthGate` | crates/synchrotron-reconcile/src/wave.rs:293-321 | an entry of a later wave is issued only after a call in which the health checker answered Healthy about all changes of each earlier changed wave, made after that wave's last apply |
| `WaveLaws.GivesUpLate` | crates/synchrotron-reconcile/src/wave.rs:298-320 | a wave times out only a full timeout after its last apply, and only if the checker never answered Healthy |
| `WaveLaws.RunIsBounded` | crates/synchrotron-reconcile/src/wave.rs:273-322 | a run makes boundedly many external calls even if health never comes |
| `WaveHandover.HandsOverTheRightManifest` | crates/synchrotron-reconcile/src/wave.rs:265-290 | over every run and every call of the applier, accepted or refused: an apply is handed the body of desired's last manifest of the resource, a delete that of live's last, and nothing else is asked |
| `WaveHandover.PollsAskForAll` | crates/synchrotron-reconcile/src/wave.rs:291-303 | every poll of a wave asks about the resources of all its changes, in order |
| `WaveHandover.RunThenReplan` | crates/synchrotron-reconcile/src/wave.rs:249-323 | with the cluster holding what the applier was handed: planning again after any run, aborted anywhere, finds exactly the changes not accepted; after success none, and the cluster is as desired; strictly fewer after any progress |
| `Recency.KeptIsLongestFit` | crates/synchrotron-plugins/src/app_cache.rs:152-180 | what an insertion keeps is the longest prefix of the recency list that fits both caps, never without the new entry |
| `ByteCounting.PutExactIff` | crates/synchrotron-plugins/src/app_cache.rs:152-180 | an exact byte counter stays exact if and only if the bytes before trimming fit a machine word, and then the survivors are the longest fitting run |
| `ByteCounting.PutIsSound` | crates/synchrotron-plugins/src/app_cache.rs:143-180 | whether or not a sum saturates, an insertion keeps the new slot, a run of the most recent ones, both caps as counted, and a counter that never overstates the list |
| `ByteCounting.PutAllExact` | crates/synchrotron-plugins/src/app_cache.rs:225-232 | a sequence of insertions whose estimates fit a machine word together keeps the counter exact |
| `AppCaching.AppCache.Get` | crates/synchrotron-plugins/src/app_cache.rs:125-138 | a hit returns the stored render and moves it to the front; a miss changes nothing but its counter |
| `AppCaching.AppCache.Put` | crates/synchrotron-plugins/src/app_cache.rs:143-180 | for every state: the new slot in front of a run of the most recent ones, replaced and evicted slots accounted for; while the byte counter is exact the run is the longest that fits the caps, and it stays exact if and only if the bytes before trimming fit a machine word |
| `AppCaching.AppCache.InvalidateApp` | crates/synchrotron-plugins/src/app_cache.rs:184-203 | removes exactly the app's slots, keeps the order of the rest, returns how many went, and loses no more of the byte count |
| `AppCaching.AppCache.Warm` | crates/synchrotron-plugins/src/app_cache.rs:225-232 | warming is a sequence of puts, touches no hit counter, and keeps an exact counter exact when all estimates fit a machine word together |
| `AppCaching.AppCache.Clear` | crates/synchrotron-plugins/src/app_cache.rs:234-238 | empties the list and zeroes the byte counter, which is exact again, leaving the counters of hits, misses, evictions and invalidations |
| `AppCaching.AppCache.GetStats` | crates/synchrotron-plugins/src/app_cache.rs:205-215 | reports a byte count that never exceeds the true sum and is within the cap unless a single oversized entry remains |
| `AppRendering.AppRenderer.Render` | crates/synchrotron-plugins/src/app_renderer.rs:92-102 | serves a hit from the cache, else dispatches, stores a success and never a failure; on a cache that holds only true renders the answer is what dispatching the spec gives, and it still does afterwards |
| `AppRendering.CacheIsTransparent` | crates/synchrotron-plugins/src/app_renderer.rs:92-102 | over every run of renders and invalidations the answer for a key is what dispatching that key gives, when dispatch is a function of the key |
| `AppRendering.SpecsAreTransparent` | crates/synchrotron-plugins/src/app_renderer.rs:59-102 | over every sequence of renders and invalidations the answer for a spec is what dispatching it gives, when dispatch gives specs of one app, commit and parameters the same and the parameters' hash tells them apart |
| `AppRendering.RenderedOnceHits` | crates/synchrotron-plugins/src/app_renderer.rs:92-102 | right after a successful render every spec of the same app, commit and parameters is served without dispatch |
| `AppRendering.StackInclusion` | crates/synchrotron-plugins/src/app_cache.rs:125-203 | under the same operations a cache with smaller caps always holds a prefix of the larger one's recency list and never hits more often, even when byte sums exceed the machine word |
| `ManifestBodies.Fnv1a64` | crates/synchrotron-plugins/src/manifest.rs:215-222 | the loop computes the fold of the 64-bit step over the bytes |
| `ManifestBodies.KnownHashes` | crates/synchrotron-plugins/src/manifest.rs:209-222 | the published FNV-1a values of no bytes and of the letter `a` |
| `ManifestBodies.StepBijective` | crates/synchrotron-plugins/src/manifest.rs:217-220 | for every byte the step is a bijection on 64-bit states |
| `ManifestBodies.SuffixCancels` | crates/synchrotron-plugins/src/manifest.rs:215-222 | a common suffix changes neither equality nor inequality of two hashes |
| `ManifestBodies.OneByteNeverCollides` | crates/synchrotron-plugins/src/manifest.rs:215-222 | two bodies of equal length differing in exactly one byte never collide |
| `ManifestBodies.EqualValuesNeedEqualHashes` | crates/synchrotron-plugins/src/manifest.rs:194-207 | two spellings of one value that differ in a single byte compare unequal, because the hash is compared first |
| `Debounce.Debouncer.EnqueueEvent` | crates/synchrotron-reconcile/src/debounce.rs:113-136 | one more generation, the latest trigger, and a sleeping timer for that generation |
| `Debounce.Debouncer.WakeTimer` | crates/synchrotron-reconcile/src/debounce.rs:126-135 | a woken timer fires its entry exactly when the entry still has its generation |
| `Debounce.Debouncer.FireIfCurrent` | crates/synchrotron-reconcile/src/debounce.rs:161-189 | fires with the entry's trigger and removes it, or does nothing |
| `Debounce.Debouncer.FlushNow` | crates/synchrotron-reconcile/src/debounce.rs:149-158 | drains every entry in whatever order the map yields, firing each once |
| `Debounce.AlwaysSafe` | crates/synchrotron-reconcile/src/debounce.rs:113-189 | over every interleaving: created = fired + pending, at most the events accepted; every pending entry has its timer asleep; its trigger is the app's latest |
| `Debounce.NothingLost` | crates/synchrotron-reconcile/src/debounce.rs:113-189 | once no timer sleeps nothing is pending and everything created was fired |
| `Debounce.FiresLatestTrigger` | crates/synchrotron-reconcile/src/debounce.rs:161-189 | every fire carries the trigger of the app's latest event, over every interleaving |
| `DebounceQuiet.FiresAreQuiet` | crates/synchrotron-reconcile/src/debounce.rs:113-189 | over every run of harmless steps (no flush of pending entries, no timer firing while another of its app sleeps) each fire, of whichever timer, has a full quiet window before it |
| `DebounceQuiet.InOrderRunsAreQuiet` | crates/synchrotron-reconcile/src/debounce.rs:113-136 | without a flush, and with the timers of each app waking in their own order, whatever other apps do, every fire is quiet; such runs reach only states the next three rows speak of |
| `DebounceQuiet.WakeKeepsQuietIff` | crates/synchrotron-reconcile/src/debounce.rs:126-135 | waking any timer keeps the guarantee for all later harmless runs if and only if it does not fire or no other timer of its app sleeps |
| `DebounceQuiet.FlushKeepsQuietIff` | crates/synchrotron-reconcile/src/debounce.rs:149-158 | a flush keeps that guarantee for all later harmless runs if and only if nothing was pending |
| `DebounceQuiet.StepKeepsQuietIff` | crates/synchrotron-reconcile/src/debounce.rs:113-189 | any step keeps the guarantee if and only if it is harmless |
| `DebounceQuiet.StaleTimerFires` | crates/synchrotron-reconcile/src/debounce.rs:161-189 | why: from any state with a timer whose entry is gone, events alone lead to a state where that timer fires with no quiet time before it |
| `DebounceQuiet.OutOfOrderFiresEarly` | crates/synchrotron-reconcile/src/debounce.rs:113-136 | a concrete run: a late timer of an app fires its next incarnation early |
| `Coalesce.Coalescer.AdmitAt` | crates/synchrotron-core/src/coalesce.rs:46-55 | lets an event through unless its key was let through less than a window ago, and remembers when it does |
| `Coalesce.Coalescer.Sweep` | crates/synchrotron-core/src/coalesce.rs:61-66 | drops exactly the keys whose next event would be let through anyway and returns how many |
| `Coalesce.AdmitsAreSpaced` | crates/synchrotron-core/src/coalesce.rs:46-55 | consecutive admits of one key are at least a window apart, in whatever order arrivals read the clock, as long as none reads an earlier time than a sweep before it |
| `Coalesce.RateBound` | crates/synchrotron-core/src/coalesce.rs:46-55 | at most span/window + 1 admits of one key in any span, arrivals in any order of clock readings |
| `Coalesce.SuppressedIff` | crates/synchrotron-core/src/coalesce.rs:46-55 | an event is suppressed if and only if its key was admitted less than a window before it, or at a later reading |
| `Coalesce.SweepIsInvisible` | crates/synchrotron-core/src/coalesce.rs:61-66 | inserting sweeps anywhere changes no answer to an arrival that reads no earlier time |
| `Coalesce.EarlySweepLetsThrough` | crates/synchrotron-core/src/coalesce.rs:61-66 | why: a sweep ahead of an arrival's reading lets a second event of the key through within the window |
| `Sse.SseStream.Next` | crates/synchrotron-cli/src/client.rs:228-275 | returns the next message of the text that will be readable, or the end, or the transport's failure, leaving the rest of the parse ahead unchanged |
| `Sse.SseStream.DrainLines` | crates/synchrotron-cli/src/client.rs:231-264 | the inner loop consumes complete buffered lines up to the first message |
| `Sse.ReadAll` | crates/synchrotron-cli/src/client.rs:228-275 | calling `next` to the end gives exactly the messages of the readable text, then its failure if any |
| `Sse.ParseResumes` | crates/synchrotron-cli/src/client.rs:228-275 | parsing may stop after any character and resume with the pending fields and the leftover |
| `Sse.ChunkIndependence` | crates/synchrotron-cli/src/client.rs:228-275 | two splittings of one text give the same messages, pending fields and leftover |
| `Sse.ParseIsLineFold` | crates/synchrotron-cli/src/client.rs:231-264 | the parser is the fold over the complete lines |
| `SseLines.FieldIsRead` | crates/synchrotron-cli/src/client.rs:241-256 | over the text: a line `field:value` or `field: value`, ended by a newline with or without carriage returns, sets the event or the id, or adds a line of data; any other field is ignored |
| `SseLines.BareFieldIsRead` | crates/synchrotron-cli/src/client.rs:241-256 | a line without a colon is a field with an empty value |
| `SseLines.CommentIsSkipped` | crates/synchrotron-cli/src/client.rs:236-240 | a line that begins with a colon changes nothing |
| `SseLines.OpenLineWaits` | crates/synchrotron-cli/src/client.rs:228-275 | text that no newline ends completes nothing and waits |
| `SseLines.EmptyLineCompletes` | crates/synchrotron-cli/src/client.rs:233-263 | an empty line completes the pending message and starts an empty one, unless nothing is pending |
| `Sse.EncodedArrives` | crates/synchrotron-cli/src/client.rs:233-263 | an encoded message arrives with its event and id, and its data less any leading newlines; nothing arrives when nothing is left |
| `Sse.CrossesUnchangedIff` | crates/synchrotron-cli/src/client.rs:250-256 | a message crosses unchanged if and only if it is not blank and its data does not start with a newline |
| `Base64.Base64RoundTrip` | crates/synchrotron-git/src/known_hosts.rs:161-194 | decoding undoes encoding for every byte string (section 4 of RFC 4648) |
| `Base64.Base64Canonical` | crates/synchrotron-git/src/known_hosts.rs:167-194 | strict decoding accepts exactly one text per byte string, the one the encoder writes |
| `Base64.EncodeIsBase64` | crates/synchrotron-git/src/known_hosts.rs:161-194 | the encoding of section 4 of RFC 4648: three bytes are a number of four digits in the written-out alphabet, missing bytes count as zero and their digits are `=` |
| `HostLines.LineRoundTrip` | crates/synchrotron-git/src/known_hosts.rs:301-342 | the line `append` writes parses to its entry if and only if the host form is a token without a comma and without the comment, marker or hashed-entry prefixes, the key type is known and the key is not empty |
| `HostLines.AppendSurvivesIff` | crates/synchrotron-git/src/known_hosts.rs:186-218 | for every file that is empty or ends in a newline: reloading after an append gives the old entries and the new one if and only if those same conditions hold |
| `HostAppend.EveryAppendSurvivesIff` | crates/synchrotron-git/src/known_hosts.rs:186-218 | for every file: reloading keeps every clean entry appended to it if and only if its unfinished last line is empty, blank, or a lone marker followed by white space |
| `HostLines.SwallowedByOpenLine` | crates/synchrotron-git/src/known_hosts.rs:186-218 | the failing input: an unfinished line that is an entry or a comment swallows every clean entry appended to it |
| `HostAppend.LineIsItsTokens` | crates/synchrotron-git/src/known_hosts.rs:301-342 | trimming a line first changes nothing: it is read by its white-space separated tokens |
| `Text.WhiteSpaceIs` | crates/synchrotron-git/src/known_hosts.rs:301-306 | what counts as white space: the twenty-five characters with Unicode's White_Space property, one by one |
| `HostMeaning.LineMeans` | crates/synchrotron-git/src/known_hosts.rs:301-357 | a line is read as an entry if and only if it is, between white space and after an optional marker, hosts, one of the nine key types and a non-empty base64 key: hosts being names joined by commas, or two bars around 1, a salt, a bar and a hash in base64; comments hold nothing |
| `HostMeaning.LinesAre` | crates/synchrotron-git/src/known_hosts.rs:101-131 | lines end at a newline or at a carriage return and a newline; the last may be unfinished |
| `HostMeaning.VerdictOfText` | crates/synchrotron-git/src/known_hosts.rs:156-180 | of a loaded text: Match if and only if some line holds the key for the host, its bare name or, on a port other than 22, its bracketed name and port, plain or as the keyed hash under the entry's salt; else Mismatch if lines for the host hold other keys of the type, else Unknown |
| `HostMeaning.OtherPortsKeepTheirVerdict` | crates/synchrotron-git/src/known_hosts.rs:375-390 | a key recorded on a port other than 22 changes no verdict for another port or another host, unless that host is named like the bracketed form |
| `HostAppend.TokensGlue` | crates/synchrotron-git/src/known_hosts.rs:186-218 | what an append does to an unfinished line: the host form becomes a token of its own or lengthens the last one |
| `HostAppend.LostAppend` | crates/synchrotron-git/src/known_hosts.rs:301-342 | a line written for an unlisted key type or an empty key is kept by no reload and harms no other entry |
| `KnownHosts.KnownHostsFile.Load` | crates/synchrotron-git/src/known_hosts.rs:101-131 | the loop over the lines keeps exactly the entries that parse, in order |
| `KnownHosts.KnownHostsFile.Verify` | crates/synchrotron-git/src/known_hosts.rs:156-180 | Match if and only if some applicable entry decodes to the key, Unknown if and only if none applies, else Mismatch |
| `KnownHosts.KnownHostsFile.Append` | crates/synchrotron-git/src/known_hosts.rs:186-218 | adds the entry in memory and its line on disk, or neither when the file cannot be written |
| `KnownHosts.HostVerifier.Check` | crates/synchrotron-git/src/known_hosts.rs:260-295 | the verdict by mode and status; only an unknown key under accept-new changes memory and disk |
| `HostTrust.RunKeepsSynced` | crates/synchrotron-git/src/known_hosts.rs:101-218 | over every run of checks and restarts, from any file fit to be appended to: a restart would load exactly the entries of memory with a listed key type and a non-empty key, and none of those is ever lost |
| `HostTrust.AcceptedForeverIff` | crates/synchrotron-git/src/known_hosts.rs:240-247 | once accepted under accept-new, a key matches after every later run, restarts included, if and only if its type is a listed one and it is not empty |
| `HostTrust.UnlistedTypeIsForgotten` | crates/synchrotron-git/src/client.rs:331-343 | the failing input: under the client's name for an unknown key type the first key is accepted and every other rejected, and after a restart another key is accepted and the first one rejected |
| `HostTrust.VerdictForeverIff` | crates/synchrotron-git/src/known_hosts.rs:240-247 | exactly when a verdict is final: a match if and only if the key type is listed and the key not empty, a mismatch if and only if every lookup name of the host has an entry of the key type that a restart keeps, an unknown never |
| `HostTrust.DefaultPortVerifiedForeverIff` | crates/synchrotron-git/src/known_hosts.rs:240-247 | trust on first use on port 22: the accepted key stays accepted and every key rejected then stays rejected, over every later run, if and only if the key type is listed and the key not empty |
| `HostTrust.VerifiedForeverIff` | crates/synchrotron-git/src/known_hosts.rs:240-247 | the same on any port: if and only if moreover every lookup name of the host has an entry that a restart keeps |
| `HostTrust.UnpinnedNameMatches` | crates/synchrotron-git/src/known_hosts.rs:375-390 | while some lookup name of a host has no entry, a first contact of that very name makes its key match for the host too |
| `HostTrust.BareNameReachesOtherPorts` | crates/synchrotron-git/src/known_hosts.rs:375-381 | on another port, while the bare name has no entry, a first contact on port 22 makes its key match on the other port too |
| `HostTrust.RejectedForeverIff` | crates/synchrotron-git/src/known_hosts.rs:256-295 | a mismatching key is rejected over every run if and only if every name the host is looked up under has an entry of the key type that a restart keeps |

## Left out

- EditScript.ScriptSuffices: takes a key field that is itself a list or mapping to be told by its YAML text from every
  other list or mapping, as it is by a serializer that never maps two values to one text. Scalars need nothing.
- ManifestDiff.DiffIsSufficient: the same, for the stripped live body.
- ScriptLimits.ScriptSufficesIff: the same, and no list inside such a key field repeats a key tuple ("plain keys").
- ScriptLimits.DiffSufficesIff: the same, for the stripped live body.
- DiffReaders.ReadableIff: the same, and the elements of registered lists are mappings; scalars that differ can be told
  apart by the live value their change carries.
- AppRendering.CacheIsTransparent: takes dispatch as a function of the cache key.
- AppRendering.SpecsAreTransparent: a change of plugin or source path without the documented invalidation is not covered;
  the hash of the parameters is any function without collisions.
- FieldsV1.TreeOwnsIff: takes key fields free of quotes, which the source writes unescaped, and one listed path for each
  manager's entry; `FieldsV1.OwnsByEntry` speaks of any tree.
- ListRules.PairedByAllKeys: a key field that is itself a list or mapping has no text here; the serializer is a parameter.
- ListRules.FitsBySegments: takes field names without dots; `ListRules.KeysForExactly` has no such condition.
- HostMeaning.VerdictOfText: HMAC-SHA1 is any function of salt and name.
- WaveRun.ExecuteWaves: takes a positive poll interval or a clock that never stands still for good; with neither the
  source may poll forever.
- WaveLaws.RunIsBounded: takes a positive poll interval; without one the number of polls depends on the clock alone.
- WaveHandover.RunThenReplan: takes an accepted call to have exactly its effect on the cluster, and the same
  desired and live slices on both sides; the reconciler fetches afresh between the two.
- Coalesce.AdmitsAreSpaced: takes no arrival to read an earlier time than a sweep before it
  (`Coalesce.EarlySweepLetsThrough`), and arrivals in order when the window is zero, which then spaces nothing.
- HostTrust.RunKeepsSynced: takes the disk to work; `KnownHosts.HostVerifier.Check` covers a write that fails, but
  not one that writes half a line. Checks are made of host forms that a line can carry (`HostLines.LineRoundTrip`) and of
  key types without white space, as all the client's names for them are; so in the other lemmas of `HostTrust`.
- Parsing of YAML, JSON and autoscaler objects, SHA-256 and HMAC-SHA1: taken as parameters or
  arbitrary functions.
- Non-string and tagged YAML keys, the rendering of negative zero, and the order in which the YAML library leaves a
  mapping after a removal (the model keeps the order).
- The parsed-value cache and the pointer comparison inside a manifest body: both only save time.
- Characters split across two chunks of an event stream: chunks are texts, not bytes.
- The 64-bit overflow of generations and counters.
- Lock poisoning, async scheduling beyond the interleavings of whole steps, the gap between snapshot and write in
  `rebuild_cache`, and lagging broadcast receivers.
- What the worker pool answers to the debouncer's enqueue.
- Logging, metrics, file permissions and everything else that is I/O: informers, HTTP, libgit2,
  gRPC, subprocess plugins.
- Per-kind health rules, hooks, pruning, token caches and retry loops: branch reading and sort-and-filter.
- The plugin-level cache in `cache.rs` and the live store in `live_source.rs`: the first repeats `app_cache.rs`, the
  second's promise is not decided by its code.
