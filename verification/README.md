# Verification of the 5gws gateway

A Dafny model of the parts of 5gws that decide where traffic goes and that move a running system from one
configuration to the next, with proofs of what they promise. `dafny verify dfyconfig.toml` checks the project.

- **Routing.** A rule list has a simple meaning: the first gateway rule that matches a host. The same decision is
  taken by a compiled index (`CompiledRules`, over the heap trie of `SuffixTrie`), by HAProxy through generated ACLs
  (`Haproxy`) and, for DNS, by generated domain lists (`SmartDns`). Each form is proved to agree with the others.
- **Applying a configuration.** `Supervisor`, `Store`, `Service` and `Daemon` are the process groups, the revision
  tables, the apply transaction and the start over whatever a crash left; `ApplyOperations` is the coordinator that
  panels talk to. External steps succeed or fail as the world pleases, and each part counts their failures. Between any
  two steps of an apply, the download of the imports included, drafts are saved, processes end and watchers report in
  any number, and the daemon may crash. Only the tables, the directories and the kernel's rules outlive a crash, so one inside a step leaves what a
  failure of that step can leave; the daemon starts again over any loaded rules.
- **Logs.** `LogBuffer` is the ring, `LogStream` the select loop that streams it.
- **Sessions.** `Sessions` is the table of QUIC sessions under concurrent goroutines.
- **Wire formats.** `ClientHello`, `QuicInitial` and `Socks`, each reader against an encoder that serves as
  specification.
- **Imports, order, defaults and names.** `Imports` (what a sing-box rule set or a mihomo provider yields),
  `RuleSources` and `Panel` (one order on the server and in the panel), `Config` and `Bundles` (migrations and
  defaults), `Rendering` (what is left to fail when a resolved bundle is rendered), `ExitIds` (identifiers in generated
  files).

Concurrency is modelled as in the source's own locks: every method that the source runs under one lock is one step,
and a method named `Others` or `Interleave` stands for any number of steps of other goroutines. Goroutine-local facts
that such a method must keep are in its contract.

A helper that the program and a claim about it share, such as a normaliser, a default or a check, has its meaning stated
on its own in plain terms: by concatenation, by the values written out, or by the fields of the configuration.

Where the code does less than one might expect of it, the exact condition is proved:

- The index and the simple matcher normalise differently; two hosts are normalised alike exactly when they are
  canonical (`Hosts.NormalisersAgreeIff`). A suffix value means the same to both exactly when it is canonical; an exact
  value also when it is normalised to something with a space in front, such as `. a`, which neither form finds in any
  canonical host (`Hosts.SuffixAgreesIff`, `Hosts.ExactAgreesIff`).
- Rule values go into HAProxy's pattern files as they are written. A value means the same there as in the index exactly
  when it is plain, without a dot or a space at an end, or when it is normalised to something with a space left at an
  end (for a suffix: behind), which both miss (`Haproxy.ExactPatternAgreesIff`, `Haproxy.SuffixPatternAgreesIff`,
  lifted to routing by `Haproxy.OneValueAgreesIff` and `Haproxy.OneSuffixAgreesIff`, with `Haproxy.TrailingDotMissed`
  as an instance).
- `buildPlan` would drop a domain when two entries share the key that joins pool and domain; this is exactly when the
  plan is incomplete, and validated pool names exclude it (`SmartDns.BuildPlan`, `SmartDns.KeysCanMeet`,
  `SmartDns.ValidNamesApart`). Every bundle that resolves has validated rules, whatever its imports hold, so its plan is
  complete; rendering it succeeds exactly when its exits are usable, its local rules hold only domains and suffixes,
  and no value of any rule is empty once it is normalised (`Rendering.ResolvedIsDecided`, `Rendering.GenerateResolved`).
- An apply fails only because something outside the program failed or because the input is refused: as long as the
  tables, the directories, the processes and the daemon hold, an accepted input is applied. And an apply that returns an
  error has not always failed. When only a prune failed after the activation, the new revision
  is active, cached and serving. When the activation was done but the row could not be read back (`unread`), the runtime
  is rolled back while the tables keep the candidate: a rollback that worked leaves a runtime that is provably not the
  active revision's, one that failed leaves the active revision's. Every other error leaves the old revision active
  (`Service.Service.ApplyBundle`).
- The cached active revision is the active row after every apply that does not crash, a failed rollback included; after a
  lost read exactly when the draft could be reset. Over whole lifetimes, a log of starts, saves and applies says when
  tables, cache, runtime and disk agree, when the cache does, and which apply moved the active pointer and why
  (`Daemon.Lifetime`).
- The two loaders of imports differ exactly when an import is reached whose type is known only after its case is
  folded; the resolver refuses it (`RuleSources.NormalisersDifferIff`).
- The QUIC ClientHello reader reads out of range on exactly two kinds of input: a handshake message that ends right
  after its random, and a CRYPTO frame whose data does not fit behind its length field, as the guard measures from
  before that field (`ClientHello.EndsEarlyIff`, `QuicInitial.ParseCryptoFrames`, `QuicInitial.GuardTooEarly`).
- Identifiers do not always tell exits apart. For every two names it is proved when they share one: never two different
  safe names; names inside the old alphabet when they spell the same words, where each underscore separates two words and
  each run of other signs does so once (and words that are empty at an end of an unsafe name do not count); a name
  outside it by its slug and digest (`ExitIds.SameIdIff`). Every name that is not safe shares its identifier with a
  different name that is, so a set of exits stays apart whatever safe name joins it exactly when all its names are safe
  (`ExitIds.SafeNamesApartIff`).
  Configurations are not checked for this; each backend section then names one exit in use exactly when no two of them
  share an identifier, for which safe names are enough (`Haproxy.SectionsOnceIff`,
  `Haproxy.SafeNamesGiveOneSectionEach`).

## Model

| member | source | states |
|---|---|---|
| Text.LowerMeans | internal/rules/rules.go:100-115 | folding case turns each of the 26 capitals into its small letter and changes nothing else |
| Text.TrimSpaceMeans | internal/rules/compiled.go:162-164 | trimming takes the spaces at both ends and nothing else |
| Rules.ValuesMean | internal/rules/rules.go:110-133 | for bare values and hosts: an exact value is the host, a suffix value is the host or what follows a dot in it, a keyword stands anywhere in it, with or without a last dot and, for a suffix, a first one |
| Rules.CaseIgnored | internal/rules/rules.go:110-133 | values that differ in case alone match the same hosts |
| Rules.GatewayDomainMeans | internal/rules/rules.go:100-108 | the gateway's rule for a host is the first one with an exit that matches it, if there is any, with or without a last dot on the host |
| Rules.HostCaseIgnored | internal/rules/rules.go:100-108 | hosts that differ in case alone get the same rule |
| Hosts.NormMeans | internal/rules/compiled.go:162-164 | the index's normaliser takes the spaces at the ends, then all dots there, and folds capitals |
| Hosts.NormalisersAgreeIff | internal/rules/compiled.go:162-164 | the index's normaliser and the one of the simple matcher give the same host if and only if the host is canonical |
| Hosts.SuffixNormalisersAgreeIff | internal/rules/compiled.go:162-164 | the same for suffix values, where one leading dot is accepted too |
| Hosts.LabelPrefixIsSuffix | internal/rules/compiled.go:117-160 | a domain is the host or a dot-separated suffix of it exactly when its labels, from the right, start the host's |
| Hosts.LabelsConcat | internal/rules/compiled.go:117-160 | labels of a joined name are the labels of its parts, back part first |
| Hosts.ExactAgreesIff | internal/rules/rules.go:110-115 | for every value that the index accepts: it matches the same canonical hosts in both forms if and only if it is canonical or is normalised to something with a space in front |
| Hosts.SuffixAgreesIff | internal/rules/rules.go:116-121 | for every value that the index accepts: it matches the same canonical hosts in both forms if and only if it is canonical |
| SuffixTrie.Insert | internal/rules/compiled.go:117-135 | after insertion the heap is still a trie of the stored paths, the node of the host's labels holds the least rank, every other node keeps its rank |
| SuffixTrie.Match | internal/rules/compiled.go:141-160 | the walk returns the least rank over all stored prefixes of the host's labels, -1 when there is none |
| SuffixTrie.NothingBelow | internal/rules/compiled.go:141-160 | a path that is absent from the trie has no stored path below it, so stopping early loses nothing |
| SuffixTrie.BestRankIsLeast | internal/rules/compiled.go:141-160 | the best rank is one of a stored prefix and none is smaller |
| CompiledRules.AddKey | internal/rules/compiled.go:35-50 | entering a key for the newest rule keeps every key at the least rank of the rules that have it |
| CompiledRules.BestRankFindsFirst | internal/rules/compiled.go:69-94 | the least rank found for a path is the first rule with a suffix of the host |
| CompiledRules.ComplexInOrder | internal/rules/compiled.go:51-64 | the remaining matchers stand in strictly growing rank, one entry for each rule that needs one |
| CompiledRules.AddRule | internal/rules/compiled.go:33-64 | a rule is entered in all three structures, or the first error in it is reported |
| CompiledRules.Compile | internal/rules/compiled.go:27-67 | the index holds exactly the gateway rules in order, or the first error of the list is returned |
| CompiledRules.MatchComplex | internal/rules/compiled.go:103-115 | an entry matches exactly the hosts that its rule's keywords or patterns match |
| CompiledRules.Compiled.FirstComplex | internal/rules/compiled.go:81-89 | leaving the rank-ordered list early still finds the first complex rule below the bound |
| CompiledRules.Compiled.MatchGatewayDomain | internal/rules/compiled.go:69-94 | the least rank over map, trie and list is the first indexed rule, or none |
| CompiledRules.RuleAgrees | internal/rules/rules.go:110-133 | one canonical rule matches a canonical host in the index exactly when it does in the simple form |
| CompiledRules.CompiledAgrees | internal/rules/rules.go:100-108 | for every canonical rule list that compiles and every canonical host both forms name the same rule, or none |
| CompiledRules.CompileAndMatch | internal/rules/compiled.go:27-94 | compiling and matching, as run, returns the simple first match |
| Imports.ValidRuleIff | internal/rules/rules.go:355-381 | a rule is valid if and only if it has a name that is not blank, no negative priority, exactly one target, of which a pool is a word of letters, digits and `_.-`, some matcher, and patterns that compile |
| Imports.PoolNameIff | internal/rules/rules.go:379-381 | pool names are words of letters, digits, underscores, dots and dashes |
| Imports.ValidImportIff | internal/rules/rules.go:415-427 | the same for an import before it is read, with a type in place of the matchers |
| Imports.TypesKnown | internal/rules/rules.go:433-440 | the two sing-box types and the four mihomo types are read, each with its codec, and every other type is refused |
| Imports.StripWarningsAre | internal/rules/rules.go:545-570 | one warning for each of the four matchers that has values, with their number |
| Imports.ParseSingBox | internal/rules/rules.go:467-510 | the loop over the decoded rules yields the rules and warnings that SingBoxMeaning describes, or the first error |
| Imports.SingBoxMeaning | internal/rules/rules.go:467-510 | exactly the decoded rules with a domain or a suffix are kept, in order, each under its number or, when it is the only one, under the import's name; every value is kept or counted in a warning, and every rule is kept or reported |
| Imports.ParseMihomo | internal/rules/rules.go:512-543 | the loop over the lines gathers one rule and the warnings, or the first error |
| Imports.LinesConserved | internal/rules/rules.go:572-605 | of lines that can all be read each gives exactly one value or one warning |
| Imports.LineIsRead | internal/rules/rules.go:572-605 | a matcher and a value joined by a comma are read back as what they mean, whatever fields follow |
| Imports.SpacesIgnored | internal/rules/rules.go:572-580 | spaces around a matcher and its value do not matter, nor do further fields |
| Imports.LineIsWrong | internal/rules/rules.go:572-580 | a line without a comma and a line with a blank value are errors, each its own |
| Imports.LoadedFits | internal/rules/rules.go:415-441 | whatever an import holds, its rules are valid, have its priority and target and only matchers that SmartDNS renders; validation never refuses one of them |
| Imports.LoadedNamesApart | internal/rules/rules.go:478-504 | the rules of one import have different names |
| RuleSources.ComparatorIsStrictTotal | internal/rules/rules.go:333-353 | on distinct indexes the source comparator is a strict total order |
| RuleSources.ComparatorMeaning | internal/rules/rules.go:333-353 | user sources first, then positive priorities ascending, zero last, ties as declared |
| RuleSources.KeysAre | internal/rules/rules.go:305-331 | a source is a default exactly when its entry has one of the six default names; its priority is the entry's and its index its place |
| RuleSources.NormalizedIsDetermined | internal/rules/rules.go:305-353 | the normalised list is one sorted permutation of the sources, however they are arranged beforehand |
| RuleSources.LocalRulesSurvive | internal/rules/rules.go:305-331 | every local rule is in the normalised list as often as in the file |
| RuleSources.NormalizedRule | internal/rules/rules.go:305-331 | every rule of a normalised list is valid, and it is a local one or has an import's target and nothing that SmartDNS cannot render |
| RuleSources.NormalisersDifferIff | internal/rules/resolver.go:41-107 | the two normalisers give different results if and only if the local rules are good and an import is reached whose type is known only with its case folded; lower-case types always agree |
| RuleSources.Normalize | internal/rules/rules.go:305-331 | the sequential loader computes that list, or the first error in file order |
| RuleSources.Collect | internal/rules/resolver.go:41-66 | in whatever order the imports finish, every result lands at its import's place |
| RuleSources.ResolverNormalize | internal/rules/resolver.go:41-80 | the concurrent loader returns the same list for every order of arrival |
| Panel.PanelOrderIsServerOrder | web/src/pages/RulesPage.vue:121-133 | what the panel shows from top to bottom is the server's order of the non-default sources, for all priorities |
| Panel.NumberingGivesOrder | web/src/pages/RulesPage.vue:178-178 | numbering the entries in some order makes that order the displayed one |
| Panel.RulesPage.ReindexEntries | web/src/pages/RulesPage.vue:178-178 | entries get 1, 2, 3, … and nothing else in the file changes |
| Panel.RulesPage.MoveEntry | web/src/pages/RulesPage.vue:179-187 | the server's order changes by exactly that one swap; a move over the edge changes nothing |
| Config.MigrateDOTPubUpstream | internal/config/config.go:372-388 | the loop computes the migrated list |
| Config.MigrateMeaning | internal/config/config.go:372-388 | the old upstream is gone, other entries keep their order, the list never becomes empty, migrating again changes nothing |
| Config.AppendMissing | internal/config/config.go:406-420 | the given list followed by the additions that were missing, in order |
| Config.MissingMeaning | internal/config/config.go:406-420 | what is appended is exactly the additions not seen, each once |
| Config.LegacyExpands | internal/config/config.go:390-404 | a list that equals a legacy list becomes the expanded list without the old upstream |
| Config.LegacyLists | internal/config/config.go:345-404 | each of the two lists of old keeps its order and becomes exactly the 22 entries that are written out |
| Config.OldUpstreamReplaced | internal/config/config.go:372-388 | the upstream that went away gives its own place in the list to its successor |
| Config.SettledForGood | internal/config/config.go:165-294 | a settled upstream list is never taken for a legacy list again and never holds the old entry |
| Config.DefaultsIdempotent | internal/config/config.go:165-294 | applying the defaults twice is applying them once, on every configuration |
| Config.SystemAndPanelFilled | internal/config/config.go:165-211 | every field that is set stays, every field that is not gets the value written out; the panel's addresses are derived from the internal network when there is one |
| Config.NetworkFilled | internal/config/config.go:184-205 | the same for the network: ports, connections and the two policies, and nothing else changes |
| Config.DnsFilled | internal/config/config.go:212-258 | the same for DNS; the certificate paths are derived from the directories as they are after the defaults |
| Config.UpstreamsFilled | internal/config/config.go:259-281 | the same for the upstream lists and the custom pools |
| Config.IosFilled | internal/config/config.go:246-255 | the address of the profile is the DOT domain's when none, or the old default, was set and there is such a domain |
| Config.ExitsFilled | internal/config/config.go:282-293 | no exit is added, dropped or moved; only Shadowsocks exits change, in cipher and timeout alone |
| Bundles.DefaultsIdempotent | internal/store/store.go:30-36 | the same for a whole bundle, with seeding and migration together |
| Bundles.OptionalRulesSeededOnce | internal/rules/managed.go:39-50 | seeding adds a rule only for a name that no rule and no import has, once, and disturbs nothing |
| Bundles.OptionalRulesAre | internal/rules/managed.go:23-50 | what seeding appends, written out: each optional rule whose name no rule and no import has |
| Bundles.SameInputIff | internal/store/store.go:65-69 | against a stored bundle an input is the same if and only if the stored configuration is its configuration with defaults and the stored rules file its rules file with seeding |
| Bundles.ManagedIff | internal/rules/managed.go:71-92 | a file passes if and only if it holds the four managed entries, written out, each of its kind and alone under its name; else a failing one is named |
| Bundles.InputAcceptedIff | internal/service/service.go:114-124 | an input is resolved if and only if its configuration is valid, its managed entries are there and every pool that a rule or an import names is built in or custom |
| Bundles.DefaultNamesAreTheirs | internal/rules/managed.go:129-146 | the default names of comparator and panel are exactly the names of the managed and optional entries |
| Bundles.Covers | internal/store/store.go:42-57 | the counting loops decide multiset inclusion |
| Bundles.ResolvedLocalRulesCurrent | internal/store/store.go:38-58 | true exactly when the resolved rules hold every local rule as often as the file |
| Bundles.ResolveBundle | internal/service/service.go:114-134 | checks, resolution and compilation in the source's order, for every arrival order of imports |
| Bundles.ResolvedIsSettled | internal/service/service.go:114-134 | a resolved bundle has its defaults, is in configuration and rules file what it came from with them, and carries every local rule |
| Supervisor.ManagedCommands | internal/engine/supervisor.go:294-305 | SmartDNS and HAProxy first, then one client for exactly each Shadowsocks exit, none twice |
| Supervisor.ProcessGroup.StopGroup | internal/engine/supervisor.go:393-408 | success means that nothing of the group is alive |
| Supervisor.Supervisor.StartGroup | internal/engine/supervisor.go:215-292 | on success the group answered its probes and, unless a loss is on its channel, exactly SmartDNS, HAProxy, the gateway and one client for each Shadowsocks exit are alive; on failure nothing of it is, unless stopping it timed out |
| Supervisor.Supervisor.Start | internal/engine/supervisor.go:136-149 | only a supervisor without a group starts one |
| Supervisor.Supervisor.Boot | internal/engine/supervisor.go:151-156 | success leaves a group started in full whose rules are loaded |
| Supervisor.Supervisor.Apply | internal/engine/supervisor.go:158-188 | every exit leaves a group started in full that owns the loaded rules, the new one or on error the old one, or a pending fatal; on success exactly the processes that the configuration calls for are alive unless a loss is announced; it fails only because a step of the outside world did; old groups are dead; processes may end at any time |
| Supervisor.Supervisor.RestoreLocked | internal/engine/supervisor.go:201-213 | the previous revision serves again with its own rules, or a fatal is pending |
| Supervisor.Supervisor.Stop | internal/engine/supervisor.go:190-199 | without a fatal nothing is alive afterwards |
| Supervisor.Supervisor.Watch | internal/engine/supervisor.go:371-391 | the unexpected end of the current group becomes a fatal; that of a replaced group does not |
| Supervisor.Supervisor.AnyRun | internal/engine/supervisor.go:158-213 | over any run, at most the current group is alive until a fatal is reported, and no loss goes unsaid |
| Store.Store.constructor | internal/store/store.go:170-198 | a new store has one row, active and draft |
| Store.Store.SaveDraft | internal/store/store.go:215-237 | one new row under an id never used, or no change at all |
| Store.Store.Activate | internal/store/store.go:239-262 | fully done or not done; exactly one row stays active and it is the pointer's |
| Store.Store.ResetDraftToActive | internal/store/store.go:264-273 | the draft pointer goes to the active row or stays |
| Store.Store.PruneRevisions | internal/store/store.go:275-279 | exactly the rows of the two pointers stay |
| Store.Store.Fail | internal/store/store.go:286-293 | only the named row changes; the invariant holds for any row but the active one |
| Service.Disk.Prepare | internal/engine/supervisor.go:95-121 | only the directory of the prepared revision is touched |
| Service.Disk.Prune | internal/service/cleanup.go:10-36 | directories to keep are untouched, and on success nothing else remains |
| Service.Service.SaveDraft | internal/service/service.go:84-91 | the input with its defaults, unresolved, becomes one new draft row and the cached draft, or nothing changes; the active row never moves |
| Service.Service.Interleave | internal/service/service.go:84-91 | any number of saves, ended processes and watcher reports keep the store valid, the active row, the cache of it and what agrees with it |
| Service.Service.RestoreActiveDraft | internal/service/service.go:211-221 | with saves and crashes between its steps, draft and caches return to the active row and only drafts saved meanwhile are left beside it; the active directory is not disturbed |
| Service.Service.Cleanup | internal/service/service.go:195-200 | after both prunes only the active row and drafts saved since are left, and no directory but the active one |
| Service.Service.KeepActive | internal/service/service.go:147-160 | an unchanged input leaves tables, cache, runtime and disk in agreement, whatever happens between its steps |
| Service.Service.ApplyBundle | internal/service/service.go:136-202 | from agreement of tables, cache, runtime and disk, every return without a failed rollback, a lost read or a crash leaves agreement again; success leaves the requested input in charge; an error leaves the old one active, except that it moves to the new one exactly when the activation was done, and then either only a prune failed and the new one is in charge, or the read after it was lost; the active row is then the requested configuration and rules file with their defaults, and an input that differs from the old row in either is never answered with no change; the cache stays the active row whatever the rollback, after a lost read exactly when the draft could be reset; after a failed rollback the candidate serves on unless a fatal is pending; an unchanged input never touches the runtime; if nothing outside the program fails it ends, with success unless the input is refused |
| Service.Service.IsCurrent | internal/service/service.go:147-147 | true exactly when the active row is this input, configuration and rules file with their defaults, and its resolved rules hold every local rule |
| Service.Service.HandOver | internal/service/service.go:170-173 | the candidate serves, or on error the current revision still does unless a fatal is pending |
| Service.Service.Undo | internal/service/service.go:174-182 | a failed candidate leaves the active revision as it was, and when the draft could be restored in full only the active row, later drafts and its directory are left |
| Service.Service.Commit | internal/service/service.go:183-202 | the tables name the candidate if and only if it was activated, and then it is the one that serves, but for a lost read |
| Service.Service.Finish | internal/service/service.go:194-202 | once the candidate is active and cached, cleaning up disturbs neither its row nor its directory |
| Service.Service.GiveBack | internal/service/service.go:184-193 | a rollback without an error leaves the previous revision in charge, one with an error the candidate, unless a fatal is pending |
| Daemon.Recover | internal/daemon/daemon.go:35-64 | exactly the active and the draft row and their directories stay, untouched; the draft goes back to the active row exactly when it failed or is the same configuration and rules file; a revision with rules that were never resolved is not started |
| Daemon.Start | internal/daemon/daemon.go:35-80 | over whatever a crash left, a daemon that starts is in agreement and without a fatal, and a draft that did not fail and differs from the active input survives; it gives up only over rules that were never resolved or because something outside failed |
| Daemon.Lifetime | internal/daemon/daemon.go:29-80 | over any number of applies, saves, ended processes, crashes at any step and restarts exactly one row is active; a log tells of every request, accounts for every move of the active pointer by a successful apply, a prune left undone or a lost read, and decides from results alone whether tables, cache, runtime and disk agree at the end and whether the cache is the active row |
| Daemon.AppliesAgree | internal/service/service.go:136-202 | an apply leaves agreement always with a change or when only a prune failed after one, and otherwise if there was agreement and neither the read nor the rollback failed |
| Daemon.Serve | internal/service/service.go:136-202 | one request keeps agreement and the cache exactly as far as the event that it logs says, with the result of the apply and the active row before and after in it; success means that the active row is the requested configuration and rules file |
| Daemon.Respond | internal/daemon/daemon.go:29-80 | a request is logged once, as missed when there is no daemon, and the longer log still says what holds |
| Daemon.Await | internal/daemon/daemon.go:29-80 | a daemon that is left idle or ends and starts again is still described by its log; a start renews agreement |
| Daemon.ApplyTwice | internal/service/service.go:136-160 | applying a bundle that was just applied reports no change under the same id and, even if it crashes, never touches the runtime; the active row is the requested input |
| LogBuffer.RingWrites | internal/engine/logs.go:26-56 | writing at the ring's end, wrapped or not, leaves the last bytes of old content and new |
| LogBuffer.LogBuffer.PutAtEnd | internal/engine/logs.go:36-45 | the two copies and the new start and size keep the ring's meaning |
| LogBuffer.LogBuffer.Write | internal/engine/logs.go:26-56 | after any write, of any length, the ring holds the last `limit` bytes of everything written and every subscriber has a notification |
| LogBuffer.LogBuffer.Snapshot | internal/engine/logs.go:63-84 | all that is held, or the longest suffix with at most n newlines, stripped of leading ones when it was cut |
| LogBuffer.SnapshotMeans | internal/engine/logs.go:63-84 | in plain terms: all that is held if it has no more newlines than asked for, else what follows the newline that is one too many, without newlines in front |
| LogBuffer.SuffixesGrow | internal/engine/logs.go:74-82 | a longer suffix never has fewer newlines, so the backward scan stops at the right place |
| LogBuffer.LogBuffer.Subscribe | internal/engine/logs.go:86-102 | a new empty channel; the others keep theirs |
| LogStream.Others | internal/engine/logs.go:46-53 | whatever writers and other subscribers do, a new sequence leaves a notification in this channel |
| LogStream.WriteLogs | internal/api/ops_handlers.go:34-42 | an event shows the tail of what was written at its moment, and a write that comes while it is sent is not lost |
| LogStream.Turn | internal/api/ops_handlers.go:55-79 | whichever case the select takes, an update beyond the last one sent is in the channel or the timer is armed |
| LogStream.Stream | internal/api/ops_handlers.go:23-79 | whenever it waits, an update beyond the last one sent is in the channel or the timer is armed; with neither, the client has the tail of everything written |
| LogStream.Drain | internal/api/ops_handlers.go:59-72 | left alone, a waiting stream sends whatever it has not sent |
| ApplyOperations.Coordinator.Begin | internal/api/apply_operations.go:50-70 | a known id starts nothing, a busy coordinator refuses, anything else starts exactly one run |
| ApplyOperations.Coordinator.GetStatus | internal/api/apply_operations.go:72-82 | only the operation started last has a record; it has ended exactly when no run is left and is running exactly while its own run is in ApplyBundle |
| ApplyOperations.Coordinator.RunStart | internal/api/apply_operations.go:84-93 | a run finds its own queued record and moves it to running |
| ApplyOperations.Coordinator.RunFinish | internal/api/apply_operations.go:93-107 | a run finds its own running record and moves it to an end |
| ApplyOperations.Coordinator.AtMostOneInFlight | internal/api/apply_operations.go:50-107 | never two applies at once |
| ApplyOperations.Others | internal/api/apply_operations.go:50-107 | without another id or a restart, at most one run is started for an id and its record only moves forward |
| ApplyOperations.Attempt | web/src/App.vue:60-73 | one turn: a post may start the apply and asking changes nothing; without an answer it repeats itself; an answer ends it with success or an error or is awaited further, by posting again when the operation is not known any more |
| ApplyOperations.WaitForApply | web/src/App.vue:58-81 | a client that sends one id again and again, over lost requests and answers, causes at most one apply; success means that this apply succeeded, and an error that it failed, that another one is under way or that the id is none |
| Sessions.SessionTable.InsertSession | internal/quic/gateway.go:173-185 | the first session of a client stays; a later one goes to be closed |
| Sessions.SessionTable.TakeOut | internal/quic/gateway.go:515-522 | what leaves the table under the lock goes to be closed by whoever took it |
| Sessions.SessionTable.CloseTaken | internal/quic/gateway.go:522-525 | a connection that was taken out is closed once |
| Sessions.SessionTable.Shutdown | internal/quic/gateway.go:87-95 | exactly the connections in the table are closed, each once, and the table is empty |
| Sessions.Others | internal/quic/gateway.go:111-193 | over any steps of other goroutines every opened connection stays exactly one of held, in the table under one key, about to be closed, closed once; none comes back |
| Sessions.Remove | internal/quic/gateway.go:515-525 | the session that had the key is closed by this goroutine alone, under any interleaving |
| Sessions.NewSession | internal/quic/gateway.go:153-193 | its connection ends in the table, or out of it and closed or about to be |
| Sessions.Relay | internal/quic/gateway.go:464-482 | when a relay ends, its session is out of the table for good |
| Sessions.GcOnce | internal/quic/gateway.go:497-513 | every session idle for too long is out of the table; left alone, exactly those are |
| ClientHello.NormalizeMeans | internal/quic/tcp_proxy.go:285-292 | the host of a name: without spaces around it, in small letters, without a last dot and without a port; the host before a port loses its own last dot |
| ClientHello.NoCapitals | internal/quic/tcp_proxy.go:285-292 | no host holds a capital |
| ClientHello.SniffTLSSNI | internal/quic/tcp_proxy.go:203-258 | in bounds and terminating on every byte sequence, with the name that the layout gives |
| ClientHello.ParseSNIExtension | internal/quic/tcp_proxy.go:260-283 | the first host_name of the list, whatever other entries stand before it |
| ClientHello.ExtractSNIFromClientHello | internal/quic/sni.go:153-197 | on every byte sequence: the raw name, from a record or a bare message, or a read out of range exactly when the message ends right after its random |
| ClientHello.EndsEarlyIff | internal/quic/sni.go:153-175 | the read is out of range if and only if the input is a bare message of 38 bytes or such a message in a record |
| ClientHello.ExtractSNIExtension | internal/quic/sni.go:199-213 | the name in the first server_name extension |
| ClientHello.ExtensionsRoundTrip | internal/quic/tcp_proxy.go:218-245 | the extensions come out of a well-formed body as they went in, behind any session, ciphers and compression |
| ClientHello.ServerNameFound | internal/quic/tcp_proxy.go:246-257 | behind any other extensions the first server_name is found, or none |
| ClientHello.HostNameRoundTrip | internal/quic/sni.go:215-228 | both list parsers take out the host name that a list starts with |
| ClientHello.FirstHostNameMeans | internal/quic/sni.go:215-228 | the QUIC reader takes a name out of a list if and only if the list's length fits and it starts with that name as a host name |
| ClientHello.RecordRoundTrip | internal/quic/tcp_proxy.go:203-218 | both readers find the same body in a single record, whatever follows it |
| ClientHello.BothReadersFindTheName | internal/quic/tcp_proxy.go:203-283 | on every well-formed ClientHello (section 4.1.2 of RFC 8446, section 3 of RFC 6066) the TCP reader gives the host that the name stands for, an ordinary name without a port byte by byte, and the QUIC reader the raw name |
| ClientHello.NeitherFindsAName | internal/quic/sni.go:153-213 | without a server_name extension neither finds a name, both in bounds |
| QuicInitial.VarintRoundTrip | internal/quic/sni.go:230-249 | every integer below 2^62 is read back from each of its encodings (section 16 of RFC 9000), whatever follows |
| QuicInitial.ParseCryptoFrames | internal/quic/sni.go:121-151 | on every plaintext: the name in the first CRYPTO frame that has one, over padding and frames without, or a read out of range exactly when a frame is reached before it whose data does not fit or whose message ends early |
| QuicInitial.GuardTooEarly | internal/quic/sni.go:132-141 | an instance of three bytes that passes the guard and is read out of range |
| QuicInitial.FramesRoundTrip | internal/quic/sni.go:121-151 | from any encoded frames what is found is what the first frame holds that is not silent, and all reads before it are in bounds |
| QuicInitial.ExtractSNI | internal/quic/sni.go:19-53 | the header checks, in bounds on every packet, hand exactly the protected part on; what the frames of the plaintext yield is returned |
| QuicInitial.HeaderRoundTrip | internal/quic/sni.go:19-65 | the protected part and the connection id are found where an encoder put them, behind any ids and token |
| QuicInitial.NameInInitial | internal/quic/sni.go:19-151 | from a whole Initial packet whose protection gives back the client's frames, what the first frame holds that is not silent, such as the name of its ClientHello, is found |
| Socks.AddressRoundTrip | internal/quic/tcp_proxy.go:373-391 | the address written for a host and port is read back, for IPv4, IPv6 and domains (sections 5 and 6 of RFC 1928) |
| Socks.RefusedIffUnnameable | internal/quic/tcp_proxy.go:373-391 | a host is refused if and only if no reply at all could name it |
| Socks.ReadIsWritten | internal/quic/gateway.go:319-362 | a reply that is accepted and names no mapped address is one that the writer would produce for the host and port read from it |
| Socks.RefusedFor | internal/quic/gateway.go:319-362 | a reply is refused for its version, then its code, then the type of its address, and what is left can only be short |
| Socks.MappedMeans | internal/quic/gateway.go:319-362 | the addresses that stand for an IPv4 one are those behind ten zeros and two bytes of ones |
| Socks.MappedRead | internal/quic/gateway.go:346-362 | an address that stands for an IPv4 one is shown as that one |
| Socks.UDPRoundTrip | internal/quic/gateway.go:401-447 | a request starts with three zero bytes, carries the address as a reply would, and the payload reader gives the payload back for every payload, port and host (section 7 of RFC 1928) |
| Socks.UDPAddressAgrees | internal/quic/gateway.go:401-420 | the datagram parser accepts exactly the unfragmented datagrams whose address the reply reader accepts, with the same rest as payload |
| Socks.WriteInitial | internal/quic/tcp_proxy.go:399-412 | over partial writes every initial byte is written once and in order; no error is returned exactly when all are and no write reported one |
| ExitIds.SlugMeaning | internal/config/config.go:68-84 | a slug is safe, has no underscore at an end and spells the letters and digits of the name in order |
| ExitIds.StemSpells | internal/config/config.go:68-78 | the identifier of a name inside the old alphabet is its words joined by underscores, where each underscore and each run of other signs separates two words |
| ExitIds.SameStemIff | internal/config/config.go:68-78 | two such identifiers are equal if and only if the names spell the same words |
| ExitIds.IdMeans | internal/config/config.go:61-84 | a name of letters, digits and underscores is its own identifier; one with dots and dashes besides gets its words joined; any other gets the first 48 signs of them, an underscore and eight bytes of its digest |
| ExitIds.HexMeans | internal/config/config.go:82-83 | each byte of the digest becomes two hexadecimal digits, the high one first |
| ExitIds.IdIsSafe | internal/config/config.go:68-84 | every identifier is a non-empty word of letters, digits and underscores, and taking it again changes nothing |
| ExitIds.SameIdIff | internal/config/config.go:68-84 | for all pairs of names: they share an identifier if and only if they are the same safe name, spell the same words inside the old alphabet, or agree in slug and digest |
| ExitIds.UnsafeHasTwin | internal/config/config.go:68-84 | a name that is not safe shares its identifier with a different, safe name |
| ExitIds.SafeNamesApartIff | internal/config/config.go:68-84 | a set of names has no shared identifier whatever safe name joins it if and only if all its names are safe |
| ExitIds.DashAndUnderscoreClash | internal/config/config.go:68-84 | an instance of two names that share one |
| ExitSelection.UsableIff | internal/render/render.go:92-101 | an exit is usable if and only if the first of its name is there and is not a Shadowsocks exit with TCP switched off |
| ExitSelection.ValidateExits | internal/render/render.go:80-101 | no error exactly when the fallback and every gateway rule name an exit that is there and carries TCP |
| ExitSelection.SelectTCPExit | internal/quic/tcp_proxy.go:135-154 | the exit named by the first indexed rule or the fallback; the errors tell what is wrong with it |
| ExitSelection.ValidExitsServeEveryHost | internal/render/render.go:80-101 | after that validation no host is without a usable exit |
| Haproxy.NamesApart | internal/render/acl.go:15-42 | an ACL name determines its rule and its kind |
| Haproxy.PathsApart | internal/render/render.go:199-224 | a list file path determines its rule and its kind, so no file overwrites another |
| Haproxy.BuildRuleViews | internal/render/render.go:199-224 | view i describes rule i, and all list files hold their own rule's values at the end |
| Haproxy.AclAny | internal/render/acl.go:15-42 | each kind of matcher that the rule has is listed once |
| Haproxy.ExitsForHAProxy | internal/render/render.go:159-171 | strictly sorted and exactly the exits in use with the fallback, for every map order |
| Haproxy.HAProxyAt | internal/render/render.go:108-132 | the sections are exactly those of the exits in use, in whatever order the map is read, every list file of a frontend is as its own rule wrote it, and the denial is there exactly with the policy `reject` |
| Haproxy.BackendsAreSections | internal/render/render.go:389-449 | every backend named by a use_backend line, sanitised twice, or a default_backend line has a section, and every section is named |
| Haproxy.SectionsOnceIff | internal/render/render.go:437-449 | each section names one exit in use, once, if and only if no two exits in use share an identifier |
| Haproxy.SafeNamesGiveOneSectionEach | internal/render/render.go:437-449 | it is enough that the names of the exits in use are safe |
| Haproxy.LinesMeanRule | internal/render/render.go:368-384 | the ACL lines of a rule, through their files, hold exactly for the hosts that the rule's values match |
| Haproxy.OwnLinesOnly | internal/render/render.go:368-391 | no line of another rule or of the encrypted DNS list can make a rule's expression hold |
| Haproxy.UseHolds | internal/render/render.go:389-391 | the expression of the i-th use_backend line holds exactly when the i-th rule matches |
| Haproxy.DenyHolds | internal/render/render.go:363-368 | the denial applies exactly to the encrypted DNS domains and what is below them |
| Haproxy.EncryptedIff | internal/render/render.go:188-197 | the denied hosts are the eight domains, written out, and every name below one of them |
| Haproxy.DecisionMeans | internal/render/render.go:386-392 | a frontend decides for the exit of the first matching rule, else the fallback, unless it denies |
| Haproxy.ExactPatternAgreesIff | internal/render/render.go:207-210 | for every value that the index accepts: it means the same in its pattern file and in the index if and only if it is plain or is normalised to something with a space at an end |
| Haproxy.SuffixPatternAgreesIff | internal/render/render.go:211-222 | for every value that the index accepts: a suffix means the same in its two files and in the index if and only if it is plain or is normalised to something with a space behind |
| Haproxy.OneValueAgreesIff | internal/render/render.go:199-224 | for a list of one exact value HAProxy and the gateway send every canonical host the same way under that same condition and no other |
| Haproxy.OneSuffixAgreesIff | internal/render/render.go:199-224 | the same for a list of one suffix |
| Haproxy.DecisionAgrees | internal/quic/tcp_proxy.go:135-154 | for every generated configuration with plain rules and every canonical host, both frontends name the exit that the gateway picks, except that with the policy `reject` both deny the eight encrypted DNS domains, written out, and every name below one |
| Haproxy.RouteBothWays | internal/render/render.go:30-62 | end to end: with keys apart generation succeeds exactly when the exits are usable, the lists can be planned and every pool is known, and then what was generated and what was compiled from one configuration route a host to one usable exit, unless the policy is `reject` and the host is one of the eight domains or below one, which both frontends deny |
| SmartDns.MentionedIsDecided | internal/smartdns/smartdns.go:147-168 | with exactly one of exit and pool in every rule, each mentioned domain is decided |
| SmartDns.DecideMeans | internal/smartdns/smartdns.go:147-168 | the first rule with a target that mentions a domain sends it to its pool if it has one, else to the gateway |
| SmartDns.MentionedMeans | internal/smartdns/smartdns.go:170-172 | a value mentions itself without spaces around it, one last dot and one first dot, in small letters |
| SmartDns.ValidNamesApart | internal/smartdns/smartdns.go:155-159 | with validated pool names no two entries share a key |
| SmartDns.KeysCanMeet | internal/smartdns/smartdns.go:155-159 | without that validation two entries can |
| Ordering.StringBeforeMeans | internal/smartdns/smartdns.go:133-144 | strings are ordered by the first place where they differ, a front part before the whole |
| SmartDns.EntryBeforeMeans | internal/smartdns/smartdns.go:138-143 | entries are ordered by domain, then by pool |
| SmartDns.Seen.AddDomainRule | internal/smartdns/smartdns.go:147-168 | the shared maps keep saying what the first mention of every domain decided |
| SmartDns.BuildPlan | internal/smartdns/smartdns.go:111-145 | both lists strictly sorted, every domain where its first deciding rule sends it, and none left out if and only if keys are apart; else the first error |
| SmartDns.PlanIsDetermined | internal/smartdns/smartdns.go:133-144 | two complete plans of the same rules are equal, so map order does not matter |
| SmartDns.GenerateAt | internal/smartdns/smartdns.go:29-97 | every decided domain is in exactly one list file, the one of its verdict, every file is sorted and declared, once when pool names differ |
| Rendering.ResolvedRule | internal/service/service.go:114-134 | every rule of a resolved bundle is valid, names a pool of the bundle's configuration if any, and is local or can be rendered |
| Rendering.ResolvedIsDecided | internal/smartdns/smartdns.go:111-168 | in every resolved bundle keys are apart, exactly the mentioned domains are decided, and every pool that one is sent to exists |
| Rendering.PlannableIff | internal/smartdns/smartdns.go:111-145 | the lists of a resolved bundle can be planned if and only if its local rules hold only domains and suffixes and no rule mentions an empty domain |
| Rendering.GenerateResolved | internal/engine/supervisor.go:95-106 | rendering a resolved bundle succeeds if and only if its exits are usable and its lists can be planned; then each mentioned domain is in the one list that it is decided for |

## Left out

- Sockets, processes, files, HTTP handlers, SQL text, clocks, logging and metrics: external steps are nondeterministic results, tables are maps changed by atomic transactions, times are parameters.
- Packet protection and key derivation of QUIC Initial packets: a parameter that returns the plaintext, with a capacity equal to its length, or nothing.
- The regular expression engine is a parameter; case folding is that of ASCII.
- JSON, TOML and YAML codecs are the identity on values, so nil and empty lists are one, except for the custom pools, where the difference is part of the logic.
- Config.Validate, net.ParseIP, net.SplitHostPort and the parsing of hosts into IPv4, IPv6 or domain are parameters or given as parsed values.
- The sort package is a stable insertion sort as a function; the proofs show that the outcome depends on the comparator alone.
- The 64-bit wrap of the log sequence number and of row ids.
- Config and Bundle are values whose defaults are functions, where the source assigns fields of a receiver: aliasing of their slices is not modelled.
- HAProxy's own reading of a pattern file (comment lines, blanks, line breaks inside a value), of host headers with a port, and of a name declared twice as a backend: patterns are the values as written, hosts carry no port, and decisions follow the documented meaning of ACL lines and use_backend order.
- The texts of the generated nftables, SmartDNS and Shadowsocks files and the socks4 option of a section.
- SmartDNS's own precedence between overlapping suffixes: the plan is stated for each domain.
- A relay or the garbage collector removes by key and may remove a newer session of the same client: the property of Sessions is conservation.
- The scan of gcOnce is one step, though each session's own lock would let an activity update in between.
- The cached draft when a save overlaps an apply: SaveDraft does not hold the apply lock, so over an apply only the active revision's cache is claimed.
- `system.state_dir` stays the same over a daemon's life, and a revision directory is named by its id.
- Loops that run until shutdown (streams, relays, a client's retries) run for any given number of turns.
- Error texts: errors are constructors with the names that the source prints.
- Reading an import and decoding its JSON or YAML: parameters that give the same answer each time; the decoded values are all that the model sees.
- Installer, updater, certificates, authentication, diagnostics, the iOS profile and page layout.
