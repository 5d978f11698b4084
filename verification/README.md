# Kailash verification models

Dafny models of eight parts of the Kailash Python SDK repository, with proofs of
the properties those parts exist for. `dafny verify dfyconfig.toml` checks the
whole project (Dafny 4.11).

| module | what it models |
|---|---|
| `AddressSpaceGuard` | the process-wide address-space guard: concurrent guarded blocks, the tightest ceiling applied with `setrlimit`, and restoring the original limits |
| `AccessControl` | rule evaluation with a stable priority sort and early exit, and the decision cache in front of it |
| `SpecSections` | the heading scanner of the spec drift gate and the passes that walk the document with it |
| `DriftBaseline` | the drift gate's baseline: classification, ageing, verdict, and `--refresh-baseline` |
| `PinConsistency` | version comparison, caps, and the bound made from a compatible-release specifier |
| `Statistics` | percentile, median and least-squares regression over exact reals |
| `AttributeExpressions` | the configuration-to-expression compiler of attribute-based conditions, its evaluator, and hierarchical matching |
| `ScheduleIdentifiers` | identifiers of the generated starter script |
| `TypedCodec` | the `__pytype__` encode/decode pair |
| `Strings`, `Sorting`, `Options` | shared text operations, Python's stable sort, option and result types |

Where the program changes state step by step (the guard's globals, the manager's
rules and cache, the baseline files, the loops over lines, rules, tokens and
rows) the model is a class or a method with a loop, proved equal to a
specification function or to a stated property. The properties are then proved
of those functions: for every input, every run of events, or every interleaving.

## Properties that do not hold as stated, and exactly when they do

- **A refused restore is retried by the next guard's exit** (comment at
  `src/kailash/security.py:907-910`). It is retried exactly when the next block
  registers a ceiling; a block the environment's own limit makes redundant leaves
  the process capped (`NextBlockRecoversIff`, `NextBlockMayNotRecover`).
- **Every live ceiling is in force.** At every state of a run the soft limit bounds
  the process by each live guard's ceiling exactly when no accepted call, other than
  a last exit's restore, asks for a negative limit (`CeilingsStayInForceIff`).
  Non-negative limits and readings are enough (`TightestCeilingInForce`); a negative
  limit can reach RLIM_INFINITY and lift another block's ceiling
  (`NegativeLimitLiftsTheCeiling`).
- **A ceiling is never below current usage.** Usage is read before `setrlimit` is
  called, and other threads may allocate in between. The calls of a run keep to
  current usage exactly when, at every entry that makes one, usage has grown since
  the reading by at most the requested limit (`CallsRespectUsageIff`); otherwise
  the soft limit can land below what is in use (`GrowthAfterReadingUndercuts`).
- **The decision cache is transparent.** Whatever the history, a check answers as a
  fresh evaluation exactly when it does not use the cache, or the request that
  filled its entry was for the same resource, the rules that applied to it then are
  those that apply now, and they have the same outcome for the user as he is now
  (`CachedAnswerIsFreshIff`). The outcome is the same when the conditions looked at
  are judged alike, and only then if no two are recorded under one key
  (`SameOutcomeIff`). While the clock runs forward and the user's record is
  unchanged, that means: the same resource, and no rule the cached decision applied
  has expired (`ServedUntilExpiryIff`). Failing runs: a user id holding `:` gets
  another request's allow (`SeparatorInUserIdCollides`), an allow outlives its rule
  (`CachedDecisionOutlivesItsRule`), and a user keeps what a lost role had granted
  (`LostRoleIsStillServed`).
- **A baseline refresh conserves entries.** True exactly when no entry outside the
  filter shares its identity with one inside it (`RefreshConservesIff`); an
  `origin` filter can drop an entry unarchived (`OriginFilterDropsEntry`). Over any
  sequence of refreshes it is true exactly when this holds at each turn
  (`SessionConservesIff`).
- **Every baseline entry lands in one class** (`scripts/spec_drift_gate.py:1364-1374`).
  An entry is in none of the returned lists exactly when it is present and fresh
  (`UnclassifiedIff`, `FreshEntryIsInNoList`); with the fresh ones added the split is
  exact (`EntriesSplit`). The entry's own `ageout` field has no say in the verdict
  (`LineOriginAndAgeoutAreIgnored`).
- **An `===` cap admits its own version.** The cap pattern reads it as `==` with a
  stray `=`, so it excludes every numeric version (`ArbitraryEqualityAlwaysExcludes`).
- **A wildcard equality accepts the versions with that prefix.** The wildcard ends the
  numeric part, so `==1.*` accepts exactly the versions equal to 1
  (`WildcardIsReadAsEquality`).
- **A requirement means all its specifiers.** Every cap counts, but only the last
  lower bound does (`LastFloorDecides`), so `>=3,>=1` accepts 2
  (`LaterFloorOverwrites`). The requirement means all of them exactly when none of
  finitely many versions it names passes below an overwritten lower bound
  (`EveryTokenIff`); if its caps admit the last lower bound, exactly when no
  specifier sets a higher one (`HighestFloorIff`).
- **The fitted line is least squares.** In the branch that treats a small
  denominator as zero this holds exactly when the numerator is zero
  (`SmallBranchIsLeastSquaresIff`). Two points with x values 0 and 1e-8 show that it
  can fail (`CloseAbscissasAreNotFitted`).
- **The third result of the regression is the correlation.** Its square is the squared
  correlation (`SquaredCorrelation`), but it is never negative, so it is the
  correlation exactly when the numerator is not negative
  (`ThirdResultIsCorrelationIff`); a falling line gives 1 instead of -1
  (`FallingLineLosesItsSign`).
- **Decoding inverts encoding.** True exactly for values none of whose dictionaries
  carries one of the five tags (`RoundTripIff`); a plain dictionary that does comes
  back as a scalar (`TaggedDictionaryIsLost`).

## Model

| member | source | states |
|---|---|---|
| `AddressSpaceGuard.GuardRegistry.EnterGuard` | src/kailash/security.py:825-868 | entering changes the request list, saved pair, applied value and kernel limits exactly as the step function says, also when usage is unreadable or setrlimit fails; what it registers is the usage read plus the limit, cut to the hard limit when that is finite and smaller |
| `AddressSpaceGuard.GuardRegistry.ExitGuard` | src/kailash/security.py:871-917 | leaving deregisters one occurrence of the ceiling and loosens, restores, or keeps everything when setrlimit fails |
| `AddressSpaceGuard.StepKeepsInv` | src/kailash/security.py:984-1002 | every enter, leave or usage change keeps the bookkeeping invariant, whichever calls are refused |
| `AddressSpaceGuard.BookkeepingIsExact` | src/kailash/security.py:771-776 | in every interleaving the request list is the multiset of the live guards' ceilings, the hard limit never changes, the saved pair is the original one, and with nothing saved the original limits are in force |
| `AddressSpaceGuard.EntryOutcome` | src/kailash/security.py:833-868 | from any reachable world an entry registers its own headroom and applies the tightest live ceiling, unless usage is unreadable, the environment is as tight already or the call it needs is refused; then it changes nothing |
| `AddressSpaceGuard.ExitOutcome` | src/kailash/security.py:871-917 | from any reachable world an exit removes the block and applies the tightest ceiling left, or the original pair when none is left, unless the call this needs is refused |
| `AddressSpaceGuard.LooserBlocksGetTheirHeadroom` | src/kailash/security.py:749-753 | over every run, with no loosening refused, the soft limit is the least of what the live blocks themselves asked for |
| `AddressSpaceGuard.LooserBlockIsReleased` | src/kailash/security.py:880-896 | when the stricter of two blocks leaves, the soft limit becomes the headroom the looser one asked for |
| `AddressSpaceGuard.CeilingsStayInForceIff` | src/kailash/security.py:749-753 | over every run, from any original limits and with any limits and readings, every live guard's ceiling bounds the process at every state if and only if no accepted call other than a last exit's restore asks for a limit that bounds nothing |
| `AddressSpaceGuard.TightestCeilingInForce` | src/kailash/security.py:749-753 | the soft limit equals the tightest live ceiling unless the last loosening was refused; it bounds the process when no call unlimits, as is the case when no limit or reading is negative |
| `AddressSpaceGuard.CallsStayLegal` | src/kailash/security.py:741-747 | no setrlimit call changes the hard limit, and one is within the hard limit and the environment's soft limit exactly when it bounds the process or nothing did originally, so always without negative requests; after entries at which usage grew by at most the limit since it was read, the next call is at or above current usage exactly when that holds of it too |
| `AddressSpaceGuard.CallsRespectUsageIff` | src/kailash/security.py:828-858 | over every run, with any allocation between a reading and its call, all calls keep to current usage if and only if at every entry that makes one usage has grown by at most the requested limit |
| `AddressSpaceGuard.GrowthAfterReadingUndercuts` | src/kailash/security.py:828-851 | a concrete run in which usage outgrows the headroom before the call and the soft limit lands below it |
| `AddressSpaceGuard.EnterRespectsUsageIff` | src/kailash/security.py:833-858 | a call made on entry is at or above current usage exactly when usage has grown since it was read by at most the requested limit |
| `AddressSpaceGuard.NegativeLimitLiftsTheCeiling` | src/kailash/security.py:834-851 | a concrete run in which a negative limit makes the process unlimited while another guard is live |
| `AddressSpaceGuard.WholeBlockIsBounded` | src/kailash/security.py:921-932 | from entry to its own exit a block that registered, or that the environment already bounds, is held within its headroom above its usage as read on entry, whatever other blocks do, as long as no call unlimits the process |
| `AddressSpaceGuard.LastExitRestores` | src/kailash/security.py:898-917 | the last exit brings back the original pair when setrlimit succeeds, and otherwise changes nothing and keeps the pair |
| `AddressSpaceGuard.BlockLeavesNoTrace` | src/kailash/security.py:921-932 | from any reachable state that no refusal has left capped, one whole block leaves requests, limits, saved pair and applied value as it found them |
| `AddressSpaceGuard.NextBlockRecoversIff` | src/kailash/security.py:841-846 | after a refused restore the next block brings the original limits back if it registers a ceiling and changes nothing if it does not; unless a call unlimited the process, the limits it then leaves are not the original ones |
| `AddressSpaceGuard.NextBlockMayNotRecover` | src/kailash/security.py:906-914 | a concrete run in which the next block leaves the process capped |
| `AccessControl.AppliedExactly` | src/kailash/access_control.py:592-603 | the applied rules are the unexpired rules for the requested resource and permission that are unrestricted or have a selector the user meets |
| `AccessControl.AppliedInOrder` | src/kailash/access_control.py:592-603 | they come by falling priority, and those of one priority in the order they were added |
| `AccessControl.OtherRulesAreIgnored` | src/kailash/access_control.py:592-598 | rules for other resources or permissions leave the decision as it is |
| `AccessControl.EvaluateClosedForm` | src/kailash/access_control.py:580-654 | access is granted exactly when the leading applicable rule grants it and no applicable rule denies |
| `AccessControl.LoneConditionalGrantsIff` | src/kailash/access_control.py:612-629 | a lone conditional rule grants exactly when every condition holds of the user and the runtime context |
| `AccessControl.RecordIsExact` | src/kailash/access_control.py:612-625 | the decision records exactly the conditions looked at, each under rule id and kind with a judgement made of it |
| `AccessControl.LeaderComesFirst` | src/kailash/access_control.py:592-603 | the first rule looked at is the applicable one of highest priority, the earliest added among equals |
| `AccessControl.ApplicableDenyWins` | src/kailash/access_control.py:635-637 | an applicable deny refuses access whatever its priority |
| `AccessControl.OrderAndPriorityAreIrrelevant` | src/kailash/access_control.py:592-637 | without applicable conditional rules, permuting or re-prioritising the rules does not change the verdict |
| `AccessControl.AccessControlManager.RuleAppliesToUser` | src/kailash/access_control.py:656-674 | a rule applies to a user exactly when it is unrestricted or one of its set selectors is met |
| `AccessControl.AccessControlManager.EvaluateRules` | src/kailash/access_control.py:580-654 | the sort, the two loops and the early exit compute the specified decision, with its condition record; its applied rules are the rules in the list whose resource, permission, selectors and expiry fit the request |
| `AccessControl.AccessControlManager.CheckAccess` | src/kailash/access_control.py:434-516 | both check methods answer and update the cache as specified, including the bypass for conditional rules |
| `AccessControl.DisabledAllows` | src/kailash/access_control.py:438-447 | a disabled manager allows everything and leaves its rules and cache alone |
| `AccessControl.EnabledCheckByCases` | src/kailash/access_control.py:449-516 | a node check with a runtime context is evaluated afresh and not stored exactly when some rule for that id is conditional; any other check stores its decision and is answered by it |
| `AccessControl.AccessControlManager.Add` | src/kailash/access_control.py:421-426 | a rule is appended and the cache emptied |
| `AccessControl.AddedRuleComesLast` | src/kailash/access_control.py:421-426 | a new rule stands behind all there were, and nothing stays cached |
| `AccessControl.AccessControlManager.Remove` | src/kailash/access_control.py:428-432 | exactly the rules with the id go, in order, and the cache is emptied |
| `AccessControl.RemoveUndoesAdd` | src/kailash/access_control.py:421-432 | removing a rule added under a fresh id gives the rule list back |
| `AccessControl.RemovedRulesAreGone` | src/kailash/access_control.py:428-432 | after a removal exactly the rules with that id have stopped applying |
| `AccessControl.KeysCollideIff` | src/kailash/access_control.py:449-487 | the exact condition under which two requests share a cache entry |
| `AccessControl.SeparatorInUserIdCollides` | src/kailash/access_control.py:487-487 | a concrete run in which a user id holding the separator makes a check grant another user what no rule grants |
| `AccessControl.CacheableIgnoresContext` | src/kailash/access_control.py:489-506 | whenever a check may use the cache, its answer does not depend on the runtime context |
| `AccessControl.CacheIsTraced` | src/kailash/access_control.py:421-516 | after any history each cached decision is what evaluating some earlier request with its key gave, under the rules now in place |
| `AccessControl.EvaluationsAgreeIff` | src/kailash/access_control.py:580-654 | two evaluations of one kind of request agree exactly when they are for the same resource, the same rules apply, and these have the same outcome for both users |
| `AccessControl.SameOutcomeIff` | src/kailash/access_control.py:612-637 | rules have the same outcome for two requests if the conditions looked at are judged alike, and only then when no two conditions share a record key |
| `AccessControl.CachedAnswerIsFreshIff` | src/kailash/access_control.py:421-516 | after any history, clock movements and changed user records included, a check answers as a fresh evaluation if and only if it is not served from the cache, or its entry was filled for the same resource, the rules that applied then are those that apply now, and they have the same outcome |
| `AccessControl.ServedUntilExpiryIff` | src/kailash/access_control.py:451-464 | with a forward clock a served answer is fresh if and only if its entry was filled for the same resource, none of the rules it applied has expired or stopped applying to the user, no other applies, and the outcome is the same; for an unchanged user only the resource and expiry count |
| `AccessControl.CacheIsTransparent` | src/kailash/access_control.py:421-516 | hence, with user ids free of the separator and no rule expiring meanwhile, a check always answers as a fresh evaluation of the rules now in place |
| `AccessControl.DecisionStaysFreshIff` | src/kailash/access_control.py:599-603 | as time passes a decision equals re-evaluation exactly while none of its applied rules has expired |
| `AccessControl.CachedDecisionOutlivesItsRule` | src/kailash/access_control.py:451-464 | a decision cached before its rule expires is still served afterwards |
| `AccessControl.LostRoleIsStillServed` | src/kailash/access_control.py:449-464 | a concrete run in which a user who lost a role is granted what only that role's rule grants |
| `SpecSections.LevelIsHashCount` | scripts/spec_drift_gate.py:438-443 | a recorded heading of level 2, 3 or 4 is exactly a line that starts with that many # characters, no more, and then a space |
| `SpecSections.FenceIsBackticks` | scripts/spec_drift_gate.py:429-433 | a fence marker is exactly a line whose first non-blank characters are three backticks |
| `SpecSections.FencedIsOdd` | scripts/spec_drift_gate.py:431-436 | a fence is open exactly behind an odd number of fence markers |
| `SpecSections.ScanSections` | scripts/spec_drift_gate.py:414-488 | the scanner returns the specified sections and subsections; every heading line carries two, or three or four, # characters, every text is its line without trailing blanks, and the marks are what the text gets |
| `SpecSections.DetailsBelongToTheirHeading` | scripts/spec_drift_gate.py:461-487 | a #### heading between a ### heading and the next ### or ## heading lies with all its lines inside the ### subsection |
| `SpecSections.SectionsTile` | scripts/spec_drift_gate.py:448-459 | every line from the first level-2 heading to the end is in exactly one section, every other line in none |
| `SpecSections.FenceResetIsSound` | scripts/spec_drift_gate.py:1796-1806 | on every body line the flag restarted at the section heading equals the whole-document fence flag |
| `SpecSections.SubsectionsAreLaminar` | scripts/spec_drift_gate.py:461-487 | subsections lie inside their section and any two are nested or disjoint |
| `SpecSections.NegationAgreesWithStack` | scripts/spec_drift_gate.py:1707-1711 | a body line is silenced exactly when a one-pass stack of open headings holds a negated one above it |
| `SpecSections.SilencedByText` | scripts/spec_drift_gate.py:1707-1711 | a line is silenced exactly when a negated ### or #### heading above it, inside a section and outside fences, is followed by no heading with as few # characters up to that line |
| `SpecSections.SweepSection` | scripts/spec_drift_gate.py:1791-1811 | a section's walk inspects exactly its body lines that are visible in the whole document and not silenced |
| `SpecSections.SweepDocument` | scripts/spec_drift_gate.py:2001-2038 | the whole-document pass inspects exactly the visible lines outside excluded sections that are not silenced |
| `DriftBaseline.DiffFindings` | scripts/spec_drift_gate.py:1383-1431 | the two loops compute the five lists of the specification, each in sort-key order |
| `DriftBaseline.FindingsSplit` | scripts/spec_drift_gate.py:1406-1413 | findings split exactly into new and pre-existing, and pre-existing means listed by identity |
| `DriftBaseline.PreExistingExactly` | scripts/spec_drift_gate.py:1405-1413 | a finding is pre-existing exactly when some entry has its spec, code, symbol and kind, and new otherwise |
| `DriftBaseline.EntriesSplit` | scripts/spec_drift_gate.py:1415-1431 | entries split exactly into resolved, fresh, expired and twice expired, consistently with `ageout_state` |
| `DriftBaseline.EntryClassesExactly` | scripts/spec_drift_gate.py:1415-1425 | resolved, expired and twice-expired entries by the presence of a finding with their four fields and their age in days |
| `DriftBaseline.UnclassifiedIff` | scripts/spec_drift_gate.py:1364-1374 | a baseline entry is in none of the three lists exactly when a finding still has its identity and it is younger than the age-out period |
| `DriftBaseline.FreshEntryIsInNoList` | scripts/spec_drift_gate.py:1415-1431 | an entry added on the day its finding is seen is in no list |
| `DriftBaseline.ApplyGrace` | scripts/spec_drift_gate.py:2775-2808 | what baseline grace surfaces, sorted: findings that are no FAIL, FAILs that no entry lists by its four fields, and present entries at least 180 days old come back as FAIL |
| `DriftBaseline.Gate` | scripts/spec_drift_gate.py:2775-2811 | the gate exits 1 exactly when a FAIL finding has no entry with its spec, code, symbol and kind, or has one added at least 180 days ago |
| `DriftBaseline.VerdictIsMonotone` | scripts/spec_drift_gate.py:1421-1425 | with findings and baseline fixed, a later date never turns a failure into a pass |
| `DriftBaseline.LineOriginAndAgeoutAreIgnored` | scripts/spec_drift_gate.py:1193-1220 | changing lines, messages, origins and the entries' `ageout` fields leaves a failure a failure |
| `DriftBaseline.BaselineFiles.RefreshBaseline` | scripts/spec_drift_gate.py:2727-2758 | a refresh rewrites the baseline file in sort-key order and appends the resolved entries to the archive; the file keeps the entries that pass the filter and have a FAIL finding with their four fields, and those sharing identity with none that passes |
| `DriftBaseline.RefreshMembers` | scripts/spec_drift_gate.py:2733-2757 | which entries a refresh keeps, archives and leaves untouched, by filter, presence and identity |
| `DriftBaseline.RefreshMembersByFields` | scripts/spec_drift_gate.py:1480-1496 | the same by the filter's four keys, each absent or equal, and by the four fields of an identity |
| `DriftBaseline.RefreshAccounts` | scripts/spec_drift_gate.py:2733-2757 | kept, untouched, archived and dropped entries are exactly the old baseline as a multiset |
| `DriftBaseline.RefreshConservesIff` | scripts/spec_drift_gate.py:2733-2736 | nothing is dropped exactly when the filter's scope is closed under identity |
| `DriftBaseline.RefreshConserves` | scripts/spec_drift_gate.py:1480-1496 | nothing is dropped without an origin filter, or with unique identities |
| `DriftBaseline.OriginFilterDropsEntry` | scripts/spec_drift_gate.py:1486-1487 | an origin filter drops an entry of another origin that shares its identity with a scoped one |
| `DriftBaseline.RefreshIsIdempotent` | scripts/spec_drift_gate.py:1352-1360 | refreshing again archives nothing and writes the identical sorted file, ties included, for every filter |
| `DriftBaseline.SessionAccounts` | scripts/spec_drift_gate.py:2727-2758 | over any sequence of refreshes, with findings and filters changing, baseline, archive and dropped entries together stay the original multiset |
| `DriftBaseline.SessionConservesIff` | scripts/spec_drift_gate.py:2727-2758 | such a sequence loses nothing exactly when every filter's scope is closed under identity at its turn |
| `DriftBaseline.SessionConserves` | scripts/spec_drift_gate.py:1480-1496 | it loses nothing when no filter names an origin, or identities were unique at the start |
| `DriftBaseline.RefreshKeepsVerdict` | scripts/spec_drift_gate.py:2722-2726 | a refresh never turns a pass into a failure, and with a closed scope leaves the verdict alone |
| `PinConsistency.ComputeReleaseTuple` | tools/check_pin_consistency.py:81-91 | the two loops compute the numeric prefix with trailing zeros stripped |
| `PinConsistency.SeparatorsSplit` | tools/check_pin_consistency.py:84-88 | a dot, plus, exclamation mark or minus behind a printed release continues it with what follows |
| `PinConsistency.OtherCharactersStop` | tools/check_pin_consistency.py:84-88 | any other character that is no digit ends the numeric part, with the component it stands in |
| `PinConsistency.ComparisonIsPadded` | tools/check_pin_consistency.py:94-110 | on numeric releases the tuple comparisons are the zero-padded order and equality of PEP 440, "Final releases" |
| `PinConsistency.ComputeCapExcludes` | tools/check_pin_consistency.py:113-128 | the loop answers whether some cap excludes the version |
| `PinConsistency.CapMeaning` | tools/check_pin_consistency.py:113-128 | what each printed and re-read cap lets through, in the zero-padded order |
| `PinConsistency.ArbitraryEqualityAlwaysExcludes` | tools/check_pin_consistency.py:116-124 | an `===` cap excludes every version with a numeric release |
| `PinConsistency.PrintedReleaseReadsBack` | tools/check_pin_consistency.py:149-149 | printing numeric components with dots and parsing them back is the identity |
| `PinConsistency.ParseReq` | tools/check_pin_consistency.py:173-202 | the token loop computes the specified floor and caps |
| `PinConsistency.FloorIsTheLast` | tools/check_pin_consistency.py:179-199 | the floor is the version of the last token that is `>=`, `>`, `~=`, or `==` without a wildcard |
| `PinConsistency.RequirementMeaning` | tools/check_pin_consistency.py:173-202 | any list of tokens accepts, in the zero-padded order, the versions not below the last lower bound that meet every token's cap |
| `PinConsistency.WildcardIsReadAsEquality` | tools/check_pin_consistency.py:196-201 | `==V.*` sets no floor and accepts only the versions equal to V |
| `PinConsistency.CompatibleRelease` | tools/check_pin_consistency.py:187-195 | a compatible-release requirement, through its floor and its printed and re-read cap, accepts exactly the versions at or above V that share all but V's last component, as PEP 440, "Compatible release", says |
| `PinConsistency.PlainRequirement` | tools/check_pin_consistency.py:179-202 | what a requirement of one token with one of the other operators accepts, in the zero-padded order; `>` is checked as `>=` |
| `PinConsistency.NoCompatibleCap` | tools/check_pin_consistency.py:134-146 | with fewer than two numeric components only the floor counts |
| `PinConsistency.LastFloorDecides` | tools/check_pin_consistency.py:173-202 | for every token list, a version passes exactly when it is not below the last lower bound and no token's cap excludes it |
| `PinConsistency.PassesWithoutEveryTokenIff` | tools/check_pin_consistency.py:179-195 | meeting every token is enough to pass, and a passing version misses one exactly where an overwritten lower bound is above it |
| `PinConsistency.EveryTokenIff` | tools/check_pin_consistency.py:173-202 | a token list means all its tokens if and only if neither its last lower bound, nor what is just above it, nor the version of an equality cap passes below an overwritten lower bound |
| `PinConsistency.EveryListIsDecided` | tools/check_pin_consistency.py:173-202 | every token list has a bound on its versions' components for which that test decides it |
| `PinConsistency.HighestFloorIff` | tools/check_pin_consistency.py:179-195 | it means all its tokens if no lower bound is above the last one; when the caps admit the last one, only then |
| `PinConsistency.LaterFloorOverwrites` | tools/check_pin_consistency.py:179-184 | a later, smaller lower bound lets in what the earlier one forbids, and the other order does not |
| `PinConsistency.FloorGroups` | tools/check_pin_consistency.py:313-327 | floors are grouped by version equality under pairwise different keys, each floor placed |
| `PinConsistency.DriftIff` | tools/check_pin_consistency.py:329-340 | more than one group means exactly that two floors differ as versions |
| `Statistics.PercentileIsLinear` | src/kailash/_math_utils.py:32-40 | at t of the way between two neighbouring sorted values' positions the percentile is t of the way between the values |
| `Statistics.PercentileMonotone` | src/kailash/_math_utils.py:32-40 | the percentile grows with p, across interpolation segments |
| `Statistics.PercentileExtremes` | src/kailash/_math_utils.py:32-40 | the 0th percentile is the minimum and the 100th the maximum |
| `Statistics.PercentileBounded` | src/kailash/_math_utils.py:32-40 | every percentile lies between minimum and maximum |
| `Statistics.PercentileIgnoresOrder` | src/kailash/_math_utils.py:34-34 | the percentile depends on the multiset of values only |
| `Statistics.PercentileMedian` | src/kailash/_math_utils.py:27-40 | the 50th percentile is the median |
| `Statistics.DenominatorIsPairwise` | src/kailash/_math_utils.py:53-53 | the denominator is the sum of squared pairwise differences of x, hence non-negative |
| `Statistics.BranchesBySpread` | src/kailash/_math_utils.py:43-62 | with fewer than two points all results are zero, below a pairwise spread of 1e-15 the mean line without correlation is returned, and from there on the least-squares line |
| `Statistics.MainBranchIsLeastSquares` | src/kailash/_math_utils.py:56-57 | the fitted line satisfies the normal equations and has the least residual sum of all lines |
| `Statistics.CorrelationNeedsNoClamp` | src/kailash/_math_utils.py:58-61 | the residual sum is between zero and the total, so the squared correlation is in [0, 1] unclamped |
| `Statistics.SquaredCorrelation` | src/kailash/_math_utils.py:58-61 | the squared third result times both denominators is the squared numerator, as for the squared Pearson correlation |
| `Statistics.ThirdResultIsCorrelationIff` | src/kailash/_math_utils.py:61-61 | the third result is the absolute correlation, hence the correlation exactly when the numerator is not negative |
| `Statistics.FallingLineLosesItsSign` | src/kailash/_math_utils.py:61-61 | for the points (0, 0) and (1, -1) the correlation is -1 and the squared third result is 1 |
| `Statistics.SmallBranchIsLeastSquaresIff` | src/kailash/_math_utils.py:54-55 | in the small-denominator branch the mean line is least squares exactly when the numerator is zero |
| `Statistics.CloseAbscissasAreNotFitted` | src/kailash/_math_utils.py:54-55 | two points with close x values for which the line returned is not least squares, though another line has no residual |
| `AttributeExpressions.OperatorNamedIff` | src/kailash/access_control_abac.py:48-67 | a text names an attribute operator exactly when it is that operator's value |
| `AttributeExpressions.BuildExpression` | src/kailash/access_control_abac.py:540-560 | the recursive loop builds the specified expression or stops at the specified error; it succeeds exactly on acceptable configurations, and what it builds evaluates to what the configuration's text means |
| `AttributeExpressions.BuildIsCorrect` | src/kailash/access_control_abac.py:540-560 | building succeeds exactly on configurations acceptable by their text, and gives an expression well formed at every depth that evaluates to the meaning of the text: "and" all, "or" some, "not" not the one, anything else the single condition |
| `AttributeExpressions.FirstErrorWins` | src/kailash/access_control_abac.py:545-549 | a list of conditions fails with its first failing member's error |
| `AttributeExpressions.ErrorsByText` | src/kailash/access_control_abac.py:540-560 | which error a configuration gives, by its operator text, its number of conditions and its path |
| `AttributeExpressions.AllAndAny` | src/kailash/access_control_abac.py:171-186 | the short-circuit folds mean for-all and exists |
| `AttributeExpressions.LogicalMeans` | src/kailash/access_control_abac.py:171-186 | And, Or and Not expressions evaluate to all, some and not the one |
| `AttributeExpressions.DeMorgan` | src/kailash/access_control_abac.py:171-186 | De Morgan's laws hold of the evaluator |
| `AttributeExpressions.DoubleNegation` | src/kailash/access_control_abac.py:185-186 | double negation holds of the evaluator |
| `AttributeExpressions.MatchIsSegmentPrefix` | src/kailash/access_control_abac.py:301-314 | a path matches exactly when the expected path's dotted segments are a prefix of its own |
| `AttributeExpressions.MatchIsPartialOrder` | src/kailash/access_control_abac.py:301-314 | matching is reflexive, antisymmetric and transitive |
| `ScheduleIdentifiers.RunBecomesUnderscore` | scripts/migrate_from_celery_beat.py:283-283 | letters, digits and underscores stay, and each maximal run of other characters becomes one underscore |
| `ScheduleIdentifiers.SafeIdentifierTrims` | scripts/migrate_from_celery_beat.py:283-286 | then the underscores at both ends go, nothing left gives "task", and a leading digit is put behind "t_" |
| `ScheduleIdentifiers.SafeIdentifierIsIdentifier` | scripts/migrate_from_celery_beat.py:281-286 | every name becomes a non-empty word-character string that does not start with a digit |
| `ScheduleIdentifiers.SafeIdentifierKeepsIdentifiers` | scripts/migrate_from_celery_beat.py:281-286 | an identifier without underscores at its ends is left unchanged |
| `ScheduleIdentifiers.SafeIdentifierIsIdempotent` | scripts/migrate_from_celery_beat.py:281-286 | sanitising twice gives what sanitising once gives |
| `ScheduleIdentifiers.FreshIdentifier` | scripts/migrate_from_celery_beat.py:319-324 | the suffix search stops within one more probe than there are names in use, at the first free candidate |
| `ScheduleIdentifiers.AllocateIdentifiers` | scripts/migrate_from_celery_beat.py:314-325 | every row gets the first candidate no earlier row took |
| `ScheduleIdentifiers.AllocationIsSound` | scripts/migrate_from_celery_beat.py:314-325 | so the identifiers are pairwise distinct and valid |
| `ScheduleIdentifiers.SameNameThrice` | scripts/migrate_from_celery_beat.py:314-325 | three rows of one name get the base, the base with _2 and the base with _3 |
| `TypedCodec.EncodedScalarSays` | test-vectors/regenerate_canonical_vectors.py:64-76 | each typed scalar becomes a dictionary of its own tag and its text under its own key; other scalars stay |
| `TypedCodec.TaggedTextDecodes` | test-vectors/regenerate_canonical_vectors.py:88-98 | a dictionary with a tag and its text decodes to that scalar, whatever else it holds; without the text it is an error |
| `TypedCodec.SetTagDecodes` | test-vectors/regenerate_canonical_vectors.py:94-95 | a set tag decodes to the set its items iterate into: a list's members decoded, a text's characters, a dictionary's keys |
| `TypedCodec.ListsPassThrough` | test-vectors/regenerate_canonical_vectors.py:74-99 | lists are returned unchanged by both functions |
| `TypedCodec.RoundTripIff` | test-vectors/regenerate_canonical_vectors.py:60-99 | decoding an encoded value gives it back exactly when no dictionary in it carries a tag |
| `TypedCodec.TaggedDictionaryIsLost` | test-vectors/regenerate_canonical_vectors.py:79-99 | a plain dictionary carrying a tag is decoded to a decimal scalar |
| `TypedCodec.EncodeIsInjective` | test-vectors/regenerate_canonical_vectors.py:60-76 | encoding is injective on such values |

## Left out

- Real system calls, `/proc` and logging: what is read as usage, and whether `setrlimit` succeeds, are inputs. Limits changed by anything but the guard are not modelled.
- Relabelling a `MemoryError` as `MemoryLimitError`: it follows whether the block registered, which the model returns.
- The built-in condition evaluators: one deterministic evaluator over condition, user and runtime context stands for them. Its use of the clock is not modelled, and one clock reading serves a whole evaluation.
- `masked_fields` in decisions: the evaluators treat the key as an unknown condition, so the list stays empty. Audit logging, routing and output masking.
- Concurrent access-control calls: each public method is one step; a store racing a rule change is not modelled. Cached decisions are values, so a caller changing a returned decision is not modelled.
- Heading regular expressions (negation, allowlist, exclusion) are predicates given to the scanner. Blank characters are the ASCII ones. Token dispatch, inline negation by paragraph, overrides and the WARN-only sweep are not part of this model.
- JSON and TOML text, filter parsing and the emitters of the drift gate; the files hold entry lists.
- The optional `packaging` comparison, pre- and post-release tags, and the regular expressions that find a requirement's name and tokens. Digits are ASCII. A cap whose version is blank is not read as the pattern's backtracking would.
- Statistics.LinRegress: takes x and y of equal length, because the program's sums over a truncating zip promise nothing otherwise; the correlation is given by its square, and rounding is left out.
- Statistics.Percentile: takes p between 0 and 100, the range its documentation gives. The remaining statistics helpers are not part of this model.
- The single attribute operators apart from hierarchical matching, and case folding.
- Unicode word characters in identifiers, and the text of the generated script.
- In the codec, library string forms of scalars are identified with the scalar; set elements are scalars listed in any fixed order; dictionaries are entry lists. A `set` tag whose items are a raw set or raw bytes is reported as not iterable, and a scalar's printed form is not re-validated; one that is not text is an error, though some constructors take numbers.
