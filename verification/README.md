# Plasmate: a verified model of its protocols and algorithms

This project models the self-contained cores of Plasmate in Dafny and proves what they promise. `dafny verify
dfyconfig.toml` checks everything. Methods keep the loops and the state changes of the code and are proved against
functions; the laws of the system are lemmas about those functions, or about every run of a state machine.

* **Robots engine** (`Octets`, `Sequences`, `Canonical`, `Matcher`, `MatcherLaws`, `Text`, `RobotsParser`,
  `RobotsParserLaws`, `RobotsRoundTrip`, `RobotsStyle`, `RobotsReport`, `RobotsGrammar`, `RobotsDecision`, `RobotsLaws`,
  `RobotsStandard`): the canonicaliser, the backtracking matcher, the line-driven parser and the longest-match decision,
  tied to section 2.2 of RFC 9309. `Matches` is the declarative meaning of a pattern, `RfcMatches` the prefix matching
  of section 2.2.3, `CodeMatches` what the loop decides; `GrammarGroups` are the groups that the grammar of the standard
  has, `Parsed` those of the parser.
* **Stream readers** (`Streams`): the capped line reader and the bounded drain, against the events of the whole byte
  stream.
* **Cancel and kill protocol** (`Supervision`): supervisor thread, caller and child as a state machine; theorems hold of
  every interleaving.
* **Key and profile store** (`AuthStore`, `StorePlacement`, `Envelope`): any number of processes, a crash between any
  two steps, a user who deletes files. Encryption is ideal in the state machine and abstract in the envelope format.
* **Workflow runner** (`Secrets`, `WorkflowPlan`, `WorkflowRun`, `WorkflowLaws`, `WorkflowVerdict`): plan validation,
  secret references, the runner, and what its report says in terms of the replies; the child, its replies, the clock and
  the environment are arbitrary values.
* **Schemas and bounded reports** (`Json`, `WebMcp`, `SchemaKeywords`, `SchemaStandard`, `Discovery`): the bounded
  traversals, schema admission, the evaluator with its depth budget against the meaning of JSON Schema, and the five
  loops that shrink a discovery report.
* **Calendar** (`Calendar`, `Numbers`): the day-number functions against the Gregorian calendar, with the casts to 32
  bits and to a float.
* **Element trees** (`Elements`, `ActionPlan`): flattening under a shared budget, in-page edits, and the action index
  against the scans it replaces.
* **Sessions** (`Sessions`): the legacy slot and the session map as one map, and the rotation of pages.

## Where the code and its promises differ

* An anchored pattern is matched too strictly: `/a*b$` rejects `/abb` (`MatcherLaws.AnchoredIncomplete`).
  `MatcherLaws.AnchoredExact` says for which patterns the verdict is the standard's on every target a URL can have:
  those with no `*`, and those that match no such target anyway, since they hold a raw `$` before the end or an octet
  that URLs encode, or begin with neither `/` nor `*`. `RobotsStandard.OneRuleExact` carries this through the parser to
  the verdict on every URL.
* An empty rule is forgotten at once, so a group with no other rule lends its agents to the next group. `a`, with an
  empty `Disallow` of its own, is refused everything that a following group refuses to `b`
  (`RobotsStandard.EmptyRuleIsForgotten`, `RobotsStandard.EmptyRuleBindsOthers`), while docs/CRAWL-POLICY.md:40-41
  promises that an empty `Disallow` has no restrictive effect. `RobotsGrammar.ParsedIsMerged` says which groups the
  parser has for every text, and `RobotsGrammar.ParsedIsGrammarIff` that they are the standard's exactly when every
  group but the last has a rule that is not empty.
* A line ends at LF or CRLF only. After a lone carriage return, where the standard ends a line too, the rule that
  follows is not read (`RobotsStandard.LoneCrFreesAgent`). `RobotsStandard.SafeFilesFollowTheStandard` gives the verdict
  of the standard for all texts without these two differences, without dropped lines or rules and with safe patterns.
* The schema evaluator differs from JSON Schema in three ways. It enforces `required` only beside `properties`, so
  `{"required": ["a"]}` is admitted and accepts `{}` (`SchemaStandard.RequiredAloneIsIgnored`). It takes no float for an
  integer, so `{"type": "integer"}` refuses `0.0` (`SchemaStandard.WholeFloatIsRefused`). It tells an integer from the
  float of the same value, so `{"const": 1}` refuses `1.0` (`SchemaStandard.OtherSpellingIsRefused`), and so do
  enumerations. Whatever else a schema says, it is read as the standard reads it if every node that requires something
  has properties, none takes integers without taking numbers, and no constant or choice holds a number that has both
  spellings (`SchemaStandard.GuardedIsStandard`). For schemas of types, properties, items, required names and constants
  this is also necessary (`SchemaStandard.PlainIsStandardIff`). Beyond those it is not: another keyword, or a choice of
  both spellings, can make up for it (`SchemaStandard.ConstantMasksRequired`, `SchemaStandard.BothSpellingsAgree`).
* `ymd_hms_to_timestamp` lands thirty days late on every day that `days_to_ymd` names. The round trip holds with that
  offset exactly up to day 784351576776, the last one whose year fits 32 bits, and for times that a float holds
  (`Calendar.RoundTripIff`); long before that day, odd seconds beyond 2 to the power of 53 are lost
  (`Calendar.OddSecondIsLost`).
* The supervisor kills every child but does not always reap it: a spawned child is reaped if and only if it had its
  pipes and no call that asks for its exit status failed (`Supervision.ReapedIff`, `Supervision.UnreapedRun`).
* A plain or unversioned profile file that lies at another path than its own domain's is migrated to the domain's path,
  over whatever is stored there. `AuthStore.MigrationIsLocal` says exactly when no other path changes, and
  `AuthStore.MisplacedFileClobbers` gives a run that loses a profile. `StorePlacement.ReadsAsStoredIff` says from which
  files every run reads as stored: those where no plain file, and no unversioned file that the installed key opens, is
  misplaced. A misplaced envelope does no harm.
* An unversioned profile file cannot be opened if its nonce begins with the magic bytes of the envelope, and can in
  every other case (`Envelope.LegacyRoundTrip`).
* A session whose id collides with the one in the legacy slot hides it, and closing that id brings the hidden one back
  (`Sessions.HiddenSessionComesBack`). Ids hold 32 random bits. `Sessions.OneMapIff` says that nothing else tells the
  table from one map.
* Observing mutations with an old cursor answers with the last change of page only: of three pages, a client that has
  the first is told how the second became the third (`Sessions.LaggingClient`). An edit in place is reported as no
  change (`Sessions.EditIsNotObserved`), and hidden from a client one page behind (`Sessions.EditedBehind`).
  `Sessions.ObservationCoversIff` says, for whatever page a client holds, when it is told what it missed.

## Model

| member | source | states |
|---|---|---|
| `Canonical.NormalizePath` | src/crawl_policy.rs:657-699 | one pass over the bytes gives the rendering of the path's units, the canonical form |
| `Canonical.NormalizedIdempotent` | src/crawl_policy.rs:657-699 | canonicalising twice is canonicalising once, in either mode |
| `Canonical.CanonicalIffFixed` | src/crawl_policy.rs:657-699 | the canonical strings are exactly the fixed points of the canonicaliser, and every result is one |
| `Canonical.NormalizedKeepsOctets` | src/crawl_policy.rs:657-699 | a path and its canonical form decode to the same octets |
| `Canonical.NormalizedEqualIff` | src/crawl_policy.rs:657-699 | two paths get one canonical form exactly when they read as the same units |
| `Canonical.NormalizedIsClean` | src/crawl_policy.rs:657-699 | a `%` only heads an uppercase triple of an octet that is not unreserved |
| `Canonical.TriplesAreRead` | src/crawl_policy.rs:657-699 | a triple, in either case of its digits, becomes its octet if that is a letter, a digit or one of `-._~`, and an uppercase triple otherwise |
| `Canonical.OctetsAreRead` | src/crawl_policy.rs:657-699 | any other octet stays, unless it is a lone `%`, not ASCII or, in a target, `*` or `$`, which become triples |
| `Canonical.TargetHasNoTokens` | src/crawl_policy.rs:648-655 | a canonical target holds no raw `*` and no raw `$`, which is what the matcher relies on |
| `Canonical.PatternSpecificity` | src/crawl_policy.rs:701-718 | the counting loop computes the specificity of any pattern |
| `Canonical.SpecificityCountsOctets` | src/crawl_policy.rs:701-718 | the specificity of a canonical pattern is the number of octets it fixes |
| `Matcher.PatternMatches` | src/crawl_policy.rs:720-754 | for every pattern and every target without a raw `*`, the backtracking loop ends and answers true exactly when a shortest matching prefix exists and, for an anchored pattern, is the whole target |
| `MatcherLaws.UnanchoredIsRfc` | src/crawl_policy.rs:720-754 | without a final `$` the loop decides the prefix matching of RFC 9309, section 2.2.3 |
| `MatcherLaws.AnchoredSound` | src/crawl_policy.rs:720-754 | with a final `$` the loop never accepts a target the standard rejects |
| `MatcherLaws.AnchoredExactAt` | src/crawl_policy.rs:720-754 | an anchored verdict is right at a target exactly when no proper prefix of a matching target matches the body |
| `MatcherLaws.AnchoredIncomplete` | src/crawl_policy.rs:732-733 | `/a*b$` matches `/abb` by the standard and is rejected |
| `MatcherLaws.AnchoredExact` | src/crawl_policy.rs:720-754 | an anchored canonical pattern is judged as the standard asks on all targets that a URL can have if and only if it has no `*`, or holds a raw `$` before its end or an octet that URLs encode, or begins with neither `/` nor `*` |
| `RobotsParser.ParseLine` | src/crawl_policy.rs:400-496 | the loop body moves groups, open group and counters to the state that follows the line |
| `RobotsParser.ParseRobots` | src/crawl_policy.rs:391-502 | the parser returns the groups and the report of the fold over the lines; what a line says is pinned by the laws of `RobotsStyle`, and what the report counts by `RobotsReport.ReportCounts` |
| `RobotsParserLaws.ParsedIsOk` | src/crawl_policy.rs:391-502 | for every text: group i has index i and an agent, every group but the last has a rule, all stored rules are canonical, the counters add up, and the rules held in groups are the rules retained |
| `RobotsRoundTrip.ParseUndoesPrint` | src/crawl_policy.rs:391-502 | parsing a printed list of well-formed groups gives those groups back |
| `RobotsRoundTrip.LineEndsDoNotMatter` | src/crawl_policy.rs:400-404 | CRLF line ends give the groups that LF line ends give |
| `RobotsRoundTrip.CarriageReturnIgnored` | src/crawl_policy.rs:401-404 | a trailing carriage return never changes what a line says |
| `RobotsStyle.CommentIgnored` | src/crawl_policy.rs:409-416 | a line says the same with a comment after it, whatever it says |
| `RobotsStyle.CommentsDoNotMatter` | src/crawl_policy.rs:391-502 | a comment after every line of a file leaves its groups as they are |
| `RobotsStyle.WrittenAgent` | src/crawl_policy.rs:409-446 | a user-agent line is read with white space around it and around its colon, with its name in any case of letters and with a comment |
| `RobotsStyle.WrittenRule` | src/crawl_policy.rs:409-480 | so is a rule, empty ones included |
| `RobotsStyle.WrittenOther` | src/crawl_policy.rs:424-495 | a line of any other name keeps its name, lowercased, and its value, and a user-agent line without a product token says nothing |
| `RobotsStyle.ParseUndoesAnyStyle` | src/crawl_policy.rs:391-502 | in whatever style the lines of some groups are written, with whatever blank lines and comments between them, parsing the file gives those groups |
| `RobotsStyle.MarkDoesNotMatter` | src/crawl_policy.rs:405-407 | a byte order mark before a text changes none of its groups |
| `RobotsStyle.CaseDoesNotMatter` | src/crawl_policy.rs:526-541 | neither the case of the token nor that of the agents in the file changes a verdict |
| `RobotsReport.ReportCounts` | src/crawl_policy.rs:391-502 | for every text, every counter of the report is the number of lines of its kind, up to the limits |
| `RobotsReport.AdvisoryIsKept` | src/crawl_policy.rs:482-494 | a kept directive keeps its name and value, cut to 128 and 512 bytes |
| `RobotsDecision.SortMatching` | src/crawl_policy.rs:580-587 | the sorted list is ordered by the comparator and is a permutation of the matching rules |
| `RobotsDecision.CollectMatching` | src/crawl_policy.rs:570-579 | the nested loops collect exactly the matching rules of the selected groups and count the rules seen |
| `RobotsDecision.Decide` | src/crawl_policy.rs:504-626 | allowed if and only if no selected rule matches or a matching allow rule is at least as specific as every matching disallow rule; the rule named, the reason and the counts agree with that |
| `RobotsDecision.HeadDecides` | src/crawl_policy.rs:580-606 | the directive of the first rule in sorted order is the declarative verdict of RFC 9309, section 2.2.2 |
| `RobotsDecision.HeadIsNamed` | src/crawl_policy.rs:580-600 | the rule named is a most specific one that matches, of these an allow rule if there is one, of these in the earliest group, of these the least as a text |
| `RobotsDecision.EvaluateDocument` | src/crawl_policy.rs:208-239 | an over-long line refuses without naming a rule; otherwise the verdict is the decision's |
| `RobotsLaws.OrderDoesNotMatter` | src/crawl_policy.rs:504-626 | the verdict is the same for files whose groups hold the same agents and rules, in any order and multiplicity |
| `RobotsLaws.SplittingDoesNotMatter` | src/crawl_policy.rs:526-548 | splitting a group into two of the same agents, anywhere in the file, keeps every verdict |
| `RobotsLaws.ExactMasksOthers` | src/crawl_policy.rs:526-548 | once a group names the token, the groups that do not name it have no say |
| `RobotsGrammar.ParsedIsMerged` | src/crawl_policy.rs:391-502 | for every text without a lone carriage return and without dropped lines or rules, the parser has the grammar's groups without their empty rules, where a group left without a rule lends its agents to the next |
| `RobotsGrammar.ParsedIsGrammarIff` | src/crawl_policy.rs:391-502 | for such texts the parser has the groups of the grammar if and only if every group of the grammar but the last has a rule that is not empty |
| `RobotsStandard.EmptyRuleIsForgotten` | src/crawl_policy.rs:427-457 | a group with an empty `Disallow` only, and a group that forbids all, parse as one group of both agents |
| `RobotsStandard.EmptyRuleBindsOthers` | src/crawl_policy.rs:427-457 | the first agent is then refused every path, though the standard permits it everything |
| `RobotsStandard.LoneCrFreesAgent` | src/crawl_policy.rs:400-404 | after a lone carriage return a rule that forbids all is not read, so an agent is permitted what the standard forbids |
| `RobotsStandard.SafeFilesFollowTheStandard` | src/crawl_policy.rs:208-239 | for every text without a lone carriage return or anything dropped, in which every group but the last has a rule that is not empty, and with safe patterns in force: text in to verdict out is what the standard asks of the grammar's groups, for every URL but the robots file's own |
| `RobotsStandard.OneRuleExact` | src/crawl_policy.rs:208-239 | for a printed file with one rule, the verdict is the standard's on every URL if and only if the pattern is safe |
| `RobotsStandard.RealUrlsGiveRealTargets` | src/crawl_policy.rs:648-655 | the canonical target of a parsed URL begins with a slash and holds no octet that URLs encode |
| `RobotsStandard.RealTargetsAreReached` | src/crawl_policy.rs:504-524 | each such target is that of some URL whose path is not the robots file's, so the rules are asked about it |
| `RobotsLaws.PrintedOrderDoesNotMatter` | src/crawl_policy.rs:391-626 | reordering the groups of a printed file, or the agents and rules inside them, keeps every verdict after parsing |
| `Streams.ReadCappedLines` | src/process_supervisor.rs:120-165 | the events delivered are the first ones, as many as the receiver takes, of the events of the concatenated bytes, whatever the chunks (a loop invariant keeps the buffer within the limit) |
| `Streams.EventsOfWritten` | src/process_supervisor.rs:120-165 | written lines are reported once each and in order, short ones with their bytes and long ones as oversized, then the tail |
| `Streams.StreamIsReported` | src/process_supervisor.rs:120-165 | event for event: each line within the limit with its bytes and each longer one as oversized, an unfinished last line too unless the stream failed, and the end last |
| `Streams.EveryStreamIsLines` | src/process_supervisor.rs:120-165 | every byte stream is such a list of lines and a tail, so the law above covers all streams |
| `Streams.DrainBounded` | src/process_supervisor.rs:383-406 | the prefix of length min(limit, total), and truncated if and only if the total is larger |
| `Supervision.NoTreeSurvives` | src/process_supervisor.rs:545-567 | on every return path no process of the tree is alive, and the tree guard killed exactly once if a child was spawned and never otherwise |
| `Supervision.CancelIsNeverLost` | src/process_supervisor.rs:585-595 | a caller that gave up has set the flag, and has killed the tree or left a flag check that is still to come |
| `Supervision.DisarmedIsHarmless` | src/process_supervisor.rs:569-605 | a caller that got its result never raised the flag and never killed |
| `Supervision.ReapedIff` | src/process_supervisor.rs:607-696 | on every return path a spawned child has been reaped if and only if its pipes were there and no call for its exit status failed; the outcome reported is the subject of `Supervision.OutcomeIsTrue` |
| `Supervision.OutcomeIsTrue` | src/process_supervisor.rs:655-696 | over every run, a finished supervision reports a timeout if and only if it killed the tree on a timeout, and an exit if and only if a poll saw the child exited and collected its status; it reports a cancel if and only if it killed the tree on a cancel |
| `Supervision.EveryOutcomeOccurs` | src/process_supervisor.rs:607-696 | there is a run to every result |
| `Supervision.UnreapedRun` | src/process_supervisor.rs:607-696 | a run that returns with the child dead and unreaped |
| `Supervision.NeverBlocks` | src/process_supervisor.rs:607-696 | the supervisor has a step to take in every reachable state until it is done |
| `Supervision.CancelIsPrompt` | src/process_supervisor.rs:607-696 | after the flag is up no check lets the loop go on, and at most thirteen own steps remain |
| `AuthStore.OnlyWholeWrites` | src/auth/store.rs:272-302 | between any two states, files change only by the whole key or the whole envelope that the lock holder staged, by a revocation of that one path, or by the user deleting one file |
| `AuthStore.KeyIsNeverReplaced` | src/auth/store.rs:334-366 | an installed key stays until the user deletes it, and a new one is installed only where there was none and nothing is encrypted |
| `AuthStore.EnvelopesOpen` | src/auth/store.rs:304-366 | in every reachable state all envelopes are sealed under the installed key |
| `AuthStore.OpeningSucceeds` | src/auth/store.rs:487-528 | decrypting an envelope with the key in hand never fails |
| `AuthStore.FailuresHaveCauses` | src/auth/store.rs:334-528 | a step that is no input or output error makes an operation fail if and only if the key file is damaged, there is no key while something is encrypted, or the key does not open the file |
| `AuthStore.CleanupSparesLiveWriters` | src/auth/store.rs:198-237 | at most one process is past the lock, and what cleanup removes belongs to no live writer |
| `AuthStore.LiveTemporaryIsIntact` | src/auth/store.rs:272-302 | a live writer finds its temporary as it left it, in every interleaving |
| `AuthStore.ResultsAreTrue` | src/auth/store.rs:463-528 | in every run, when an operation returns, the files say what it reports, unless the user has deleted the file since |
| `AuthStore.LoadReadsAndMigrates` | src/auth/store.rs:487-528 | a load that returns a value leaves it at its path in the current format, unless the user has deleted it since; from any start in which no plain file, and no unversioned file that the installed key opens, is misplaced |
| `AuthStore.LoadReturnsLastStored` | src/auth/store.rs:463-601 | under the same condition, in every run a load returns the profile last stored at its path and not revoked since, and none only if there is no such profile or the user deleted it |
| `AuthStore.PathsReadAsStored` | src/auth/store.rs:463-601 | under the same condition, at every moment of every run a path reads as exactly the profile last stored there and not revoked since, until the user deletes its file |
| `AuthStore.PathChanges` | src/auth/store.rs:463-601 | the file of a path stays as it is but for a store, a migration, a revocation or a deletion by the user at that path |
| `AuthStore.MigrationIsLocal` | src/auth/store.rs:497-524 | a migration leaves other paths alone if and only if the file lies at its own domain's path or that path holds the same profile already |
| `AuthStore.MisplacedFileClobbers` | src/auth/store.rs:497-524 | a run in which loading one path destroys the profile of another |
| `StorePlacement.ReadsAsStoredIff` | src/auth/store.rs:463-601 | from a start, every path reads in every run as the profile last stored there and not revoked since, until the user deletes its file, if and only if no plain file and no unversioned file that the installed key opens is misplaced there |
| `StorePlacement.StoredIsLoaded` | src/auth/store.rs:463-528 | from every start with a key, or with nothing encrypted, a run stores any profile, reports it, loads it again and returns its value, and changes no other profile |
| `StorePlacement.RevokedIsAbsent` | src/auth/store.rs:487-601 | from every start, a run revokes any path, loads it and reports that there is nothing |
| `Envelope.EnvelopeRoundTrip` | src/auth/store.rs:377-430 | an envelope opens to what was sealed, and is never read in the old format |
| `Envelope.LegacyRoundTrip` | src/auth/store.rs:403-448 | an unversioned file opens to its text if and only if its nonce does not begin with the envelope's magic; otherwise it is refused as an unknown version unless the next byte happens to be 1 |
| `Envelope.OpensIff` | src/auth/store.rs:403-448 | a file opens to a text if and only if it is magic, version 1, nonce and a box of the text sealed with that header, or does not begin with the magic and is a nonce and a box of the text sealed without |
| `Secrets.CollectSecretRefs` | src/agent_workflow.rs:504-546 | accepts exactly the trees whose references are well formed, and adds exactly their names to the set |
| `Secrets.AcceptedIff` | src/agent_workflow.rs:504-546 | a tree is accepted if and only if every object in it that has the reserved key, at any depth, has no other, and a name of the right form under it |
| `Secrets.NamesAreReferred` | src/agent_workflow.rs:504-546 | the names collected are exactly those of the references that occur in the tree |
| `Secrets.NamePattern` | src/agent_workflow.rs:519-531 | a name is accepted if and only if it is a capital or underscore and at most 63 more capitals, digits and underscores |
| `Secrets.ResolveExactly` | src/agent_workflow.rs:562-586 | on an accepted tree, resolution succeeds if and only if every collected name is bound within the size cap, and leaves no reference; what it gives is the subject of `Secrets.ResolveFills` |
| `Secrets.ResolveFills` | src/agent_workflow.rs:562-586 | on an accepted tree with all names supplied, the result is the one tree that has the value of every reference in its place, lists of equal length, objects of equal keys in order, and every other value as it was |
| `Secrets.FailureIsBlamed` | src/agent_workflow.rs:562-586 | a failure is true of some collected name: it is missing, or its value too long |
| `Secrets.ReadsOnlyNames` | src/agent_workflow.rs:562-586 | two environments that agree on the collected names give one result |
| `Secrets.NormalizeTwice` | src/agent_workflow.rs:386-402 | normalising is idempotent |
| `Secrets.NormalizeEqualIff` | src/agent_workflow.rs:386-402 | two trees normalise equally if and only if they differ only in secret names |
| `WorkflowPlan.CheckStep` | src/agent_workflow.rs:265-315 | one round accepts exactly the steps that are sound on their own |
| `WorkflowPlan.ValidatePlan` | src/agent_workflow.rs:240-352 | accepts exactly the plans that open one session first, have unique ids and approve every mutating step by name, and returns the secret names |
| `WorkflowPlan.PlanRules` | src/agent_workflow.rs:240-352 | which plans that are, in numbers and sets of tools: at most 64 steps with distinct ids, the session opened by the first alone, every mutating tool approved by name, all limits in range |
| `WorkflowRun.RunSteps` | src/agent_workflow.rs:800-877 | the loop leaves reports, session, request id and requests of the state after all steps; what that state says of each step is the subject of `WorkflowVerdict` |
| `WorkflowRun.Greet` | src/agent_workflow.rs:730-798 | a run goes on to its steps exactly when the handshake succeeds; otherwise nothing but the handshake was sent, and every step is skipped for the first thing that went wrong |
| `WorkflowRun.Finish` | src/agent_workflow.rs:881-908 | the final status is success if and only if all steps succeeded and the child exited with 0; the counts add up |
| `WorkflowRun.Execute` | src/agent_workflow.rs:667-908 | for every validated plan and every behaviour of the child: what is sent and what is reported, in full, with the reason if the steps are not reached |
| `WorkflowRun.CheckAdvertised` | src/agent_workflow.rs:961-991 | the advertised schemas are accepted exactly if every step fits, and otherwise the failure is the first one |
| `WorkflowVerdict.SucceededIff` | src/agent_workflow.rs:800-877 | step i succeeds if and only if it was called and the child's reply to request i+3, in time, is of the right protocol and id, has a result and no error, is an error or not as expected, has at the pointer a value, and the expected one if one is given, and for step 0 a usable session id |
| `WorkflowVerdict.FailuresAreTrue` | src/agent_workflow.rs:800-950 | the failure class of every step says what happened: what was missing, in which reply, or why there was none |
| `WorkflowVerdict.CalledIff` | src/agent_workflow.rs:803-845 | exactly the steps are called that are not skipped, are reached in time and have a session or open it |
| `WorkflowVerdict.SkippedIff` | src/agent_workflow.rs:803-877 | a step is skipped if and only if an earlier one failed under fail-fast, out of time, or without a usable answer |
| `WorkflowVerdict.HandshakeIff` | src/agent_workflow.rs:730-798 | the steps are reached if and only if the child answers both requests, lists every tool once with a schema, has `close_page`, and every step's arguments with what the runner adds pass the schema of its tool |
| `WorkflowLaws.SkippedAreASuffix` | src/agent_workflow.rs:803-814 | skipped steps are a suffix, right after a failed step |
| `WorkflowLaws.FailFastShape` | src/agent_workflow.rs:803-877 | under fail-fast the report reads succeeded, at most one failed, skipped |
| `WorkflowLaws.SessionIsAccepted` | src/agent_workflow.rs:850-877 | the session held is the one step 0 was given |
| `WorkflowLaws.CallsAreOwned` | src/agent_workflow.rs:815-877 | request ids strictly increase, calls follow the steps, every later call carries that session and the first the trace flag, and all carry the other arguments of their step as they are |
| `WorkflowLaws.SilentAfterTransportFailure` | src/agent_workflow.rs:839-877 | no step request follows a transport failure |
| `WorkflowLaws.SucceededWereCalled` | src/agent_workflow.rs:803-877 | a step reported as succeeded was sent to the child |
| `WorkflowLaws.MutationsAreApproved` | src/agent_workflow.rs:322-342 | every mutating call that is sent belongs to a step approved by name, and is reported so |
| `WorkflowLaws.OpenedSessionsAreClosed` | src/agent_workflow.rs:881-895 | an opened session is closed under its own id and a fresh request id unless transport or time is gone, and nothing else is closed |
| `Json.ValidateBounds` | src/webmcp.rs:868-902 | with one counter for the tree: accepts if and only if node count, depth, keys and strings are within bounds; the counter then is the size, and a rejection visits at most one node too many |
| `Json.ValidateItems` | src/ard.rs:1025-1083 | the same for the items of a list, under the one counter |
| `Json.ValidateMembers` | src/ard.rs:1025-1083 | the same for the members of an object, with key lengths |
| `Json.WithinIff` | src/webmcp.rs:868-902 | what is accepted is a tree of few enough nodes, every one of which, at every level, is near enough to the root and fits by itself |
| `WebMcp.ValidateSchema` | src/webmcp.rs:778-790 | admits exactly the objects within bounds of which every node reached through properties, items and branches has a supported shape, whatever the depth budget of the walk |
| `WebMcp.ShapeIsWellShaped` | src/webmcp.rs:792-866 | where the walk does not run out of depth, it accepts exactly the well-shaped schemas |
| `WebMcp.EvaluateMeansValid` | src/webmcp.rs:952-1039 | a schema of good shape at a depth is evaluated from there without a budget error, and the verdict is its meaning; what the keywords mean is the subject of `SchemaKeywords.EvaluateExactly` |
| `WebMcp.AdmittedSchemasAreDecided` | src/webmcp.rs:952-1039 | for every admitted schema and every input, the evaluator decides the budget-free meaning and nothing runs out |
| `WebMcp.AdmissionNeverRunsOutOfDepth` | src/webmcp.rs:792-866 | the depth check on values already implies the depth check on schemas |
| `SchemaKeywords.TypeMeansKind` | src/webmcp.rs:952-975 | for each of the seven type names, the schema that only names it is admitted and passes exactly the values of that kind |
| `SchemaKeywords.EvaluateExactly` | src/webmcp.rs:952-1039 | within the depth budget an input passes if and only if it is of the kind named, equals the constant and some choice, passes at least one, exactly one and every branch, has every required name and passes every property and every item by index |
| `SchemaKeywords.ShapeExactly` | src/webmcp.rs:792-866 | within the depth limit a node is admitted if and only if its keys are of the twelve known ones, each has a value of the right form, and every schema inside is admitted |
| `SchemaStandard.RequiredAloneIsIgnored` | src/webmcp.rs:1011-1021 | an admitted schema that requires a name accepts the empty object |
| `SchemaStandard.WholeFloatIsRefused` | src/webmcp.rs:963-975 | an admitted schema of type integer refuses a float without a fraction, which JSON Schema counts as an integer |
| `SchemaStandard.OtherSpellingIsRefused` | src/webmcp.rs:976-980 | an admitted schema of a constant integer refuses the float of the same value |
| `SchemaStandard.GuardedIsStandard` | src/webmcp.rs:952-1039 | if every reachable node that requires something has properties, takes integers only where it takes numbers, and lists no constant or choice with a number that has both spellings, the code and JSON Schema agree about every input |
| `SchemaStandard.PlainIsStandardIff` | src/webmcp.rs:952-1039 | for well-shaped schemas of types, properties, items, required names and constants they agree about every input if and only if every reachable node is so guarded |
| `SchemaStandard.ConstantMasksRequired` | src/webmcp.rs:976-980 | other keywords can make up for a node without properties |
| `SchemaStandard.BothSpellingsAgree` | src/webmcp.rs:981-985 | an enumeration of both spellings of a number is read as the standard reads it, though each alone is not |
| `Discovery.EnforceLimit` | src/ard.rs:1296-1382 | the five loops end with the report and outcome of the staged reduction |
| `Discovery.EverythingIsCounted` | src/ard.rs:1296-1382 | omitted plus remaining is constant for each of the five kinds, and the truncation flag is set when anything goes |
| `Discovery.OutcomeIsTrue` | src/ard.rs:1296-1382 | success means that the report measures at most 524288 bytes; giving up means that nothing is left to drop and it still does not |
| `Discovery.StagesInOrder` | src/ard.rs:1296-1382 | a stage removes something only after all earlier stages are exhausted |
| `Discovery.NothingIsRemovedInVain` | src/ard.rs:1296-1382 | the report before the last removal was too large |
| `Discovery.SurvivorsAreOriginal` | src/ard.rs:1296-1382 | from any stage on, survivors are prefixes of the originals with values kept or blanked, and what comes later goes first |
| `Discovery.ReducedIsOriginal` | src/ard.rs:1296-1382 | of optional values, failures, entries and source details alike, later catalogs and sources lose theirs first; in a catalog the host's value first, in an entry data, metadata and trust in turn, in a source failures before candidates |
| `Calendar.DatesFollow` | src/cdp/cookies.rs:499-513 | every day count names a valid Gregorian date, and the next count the next day |
| `Calendar.FirstDate` | src/cdp/cookies.rs:499-513 | day 0 is 1 January 1970 |
| `Calendar.DatesAreOrdered` | src/cdp/cookies.rs:499-513 | dates come in calendar order, so none comes twice |
| `Calendar.WayBackIsThirtyDaysLate` | src/cdp/cookies.rs:562-576 | the way back lands exactly thirty days late on every date |
| `Calendar.RoundTripIff` | src/cdp/cookies.rs:562-576 | the round trip, with the casts to `i32` and `f64`, is off by exactly thirty days and keeps the time if and only if the day is at most 784351576776, the last whose year fits 32 bits, and the seconds are exact as a float |
| `Calendar.OddSecondIsLost` | src/cdp/cookies.rs:574-575 | a day whose year fits, at which the cast to `f64` loses a second |
| `Elements.FlattenElements` | src/inspection.rs:256-294 | appends the first elements of the depth-first order that the budget allows, and keeps remaining plus returned |
| `Elements.CompactKeepsFields` | src/inspection.rs:256-294 | a compact element has every field of its element, cut to its own length, and the first eight actions |
| `Elements.CompactStructure` | src/inspection.rs:213-254 | each of the first 32 regions gets its share of one budget of 256; counts and truncation flag follow |
| `Elements.SharesAreAPrefix` | src/inspection.rs:213-254 | the shares put together are the first elements of the whole depth-first order |
| `Elements.ShareOfRegion` | src/inspection.rs:213-254 | a region gets the start of its own order, as much as the regions before it left |
| `Elements.TruncationIsTrue` | src/inspection.rs:213-254 | with a true element count the structure counts what is missing, and says truncated if and only if something is missing or there are more than 32 regions |
| `Elements.EditInList` | src/awp/handler.rs:1607-1620 | the recursive edit with its early return gives the edited list |
| `Elements.EditInRegions` | src/awp/handler.rs:1601-1605 | every region is edited |
| `Elements.EditOfDocument` | src/awp/handler.rs:1601-1650 | with unique ids an edit changes the attributes of the one element with the id, and of none if that lies in a shadow root |
| `Elements.EditKeepsTheFrame` | src/awp/handler.rs:1607-1650 | whatever the ids, the tree and all but attributes stay |
| `Elements.FrameAndMarksDetermine` | src/awp/handler.rs:1607-1650 | frame and attributes together determine a tree, so the two laws above say all |
| `Elements.SetValueReads` | src/awp/handler.rs:1607-1620 | setting a value twice is setting it once, the value then reads as set, and all other fields stay; attributes that are no object stay as they are |
| `Elements.ToggleReads` | src/awp/handler.rs:1628-1650 | a toggle flips a boolean `checked`, or else an `open` that is there, and else sets `checked`; all other fields stay |
| `Elements.ToggleTwice` | src/awp/handler.rs:1628-1650 | toggling twice restores the attributes if and only if a boolean was there to toggle |
| `ActionPlan.FindByIdInSlice` | sdk/go/query.go:44-59 | finds the first element of the depth-first order with the id |
| `ActionPlan.CollectInteractive` | sdk/go/query.go:92-102 | collects the elements with actions in depth-first order |
| `ActionPlan.GetActionPlan` | sdk/go/query.go:340-486 | one item per element with actions, in depth-first order |
| `ActionPlan.MakeItem` | sdk/go/query.go:350-483 | a blocked item carries the reason of highest rank: inert, disabled, readonly |
| `ActionPlan.ItemShowsElement` | sdk/go/query.go:350-483 | an item has the caption or else the text of its element and the attributes of its controls, and is enabled unless they say inert, disabled or readonly |
| `ActionPlan.EnabledIffNotBlocked` | sdk/go/query.go:457-478 | an item of a plan is enabled if and only if it has no blocked reason |
| `ActionPlan.ActionOrderDoesNotMatter` | sdk/go/query.go:307-326 | the parts the cache key is made of do not change when the actions are permuted |
| `ActionPlan.PartsTellApart` | sdk/go/query.go:307-338 | two items get the same parts if and only if they agree in every part, where no text is as good as an empty one |
| `ActionPlan.ActionsTellApart` | sdk/go/query.go:307-326 | for actions without commas the joined text tells how often each action is there, and nothing else |
| `ActionPlan.BuildIndex` | sdk/go/query.go:500-546 | every lookup equals the scan of the plan, and the role and action groups are complete and in order |
| `ActionPlan.FindInIndex` | sdk/go/query.go:595-626 | by every kind of key and in the automatic order, the index gives what the scans give |
| `ActionPlan.FindActionTarget` | sdk/go/query.go:560-592 | from document to item is one scan of the plan |
| `ActionPlan.TargetIsFirst` | sdk/go/query.go:560-626 | by each kind of key the item found is the first whose field has the value; without a kind, ids come before cache keys, HTML ids and test ids; other kinds find nothing |
| `ActionPlan.GroupsHold` | sdk/go/query.go:500-546 | a role group holds exactly the items of the role, and an action group those that offer the action |
| `ActionPlan.GetActionPlanIndex` | sdk/go/query.go:500-546 | an enabled-only index is the index of the enabled items |
| `ActionPlan.ScanIsFirst` | sdk/go/query.go:500-546 | a scan finds an item if and only if it is the first with the key |
| `ActionPlan.EnabledScanMisses` | sdk/go/query.go:489-503 | an enabled-only lookup misses if and only if all items with the key are blocked |
| `Sessions.TableIsOneMap` | src/awp/handler.rs:159-262 | as long as no new session takes the slot's id, slot and map answer every sequence of create, close and get as one map of at most 50 sessions |
| `Sessions.OneMapIff` | src/awp/handler.rs:159-262 | after any such run, creating, closing and getting a session answers as one map would if and only if its id is not the slot's |
| `Sessions.ApartIff` | src/awp/handler.rs:159-233 | the slot's session gets hidden exactly by a new session with its id |
| `Sessions.HiddenSessionComesBack` | src/awp/handler.rs:235-262 | closing the id then shows the hidden session again |
| `Sessions.ConnectionState.GetSession` | src/awp/handler.rs:49-62 | looks in the map first and then in the slot |
| `Sessions.ConnectionState.CreateSession` | src/awp/handler.rs:159-233 | the table after a create and its reply, with a new session object |
| `Sessions.ConnectionState.CloseSession` | src/awp/handler.rs:235-262 | the table after a close and its reply |
| `Sessions.Session.Navigate` | src/awp/session.rs:166-347 | keeps cursor, page count and history length equal, and current and previous the last two pages; a failure changes nothing |
| `Sessions.Session.EditPage` | src/awp/handler.rs:576-606 | an edit in place changes the last page only and moves no cursor |
| `Sessions.Session.ObserveMutations` | src/awp/handler.rs:392-449 | the answer for every history of pages and every cursor of the client |
| `Sessions.ObservationIsCurrent` | src/awp/handler.rs:392-449 | which answer is given for every number of pages and every cursor, and that it tells of the last pages under the number of pages |
| `Sessions.ObservationCoversIff` | src/awp/handler.rs:392-449 | whatever page a client holds, it is told exactly what it missed if and only if there is at most one page, or it holds the page before the last as that was left, or, with an up-to-date cursor, the last page as it is |
| `Sessions.EditIsNotObserved` | src/awp/handler.rs:392-449 | after an edit in place an up-to-date client is told that nothing changed, rightly only if the edit did nothing |
| `Sessions.LaggingClient` | src/awp/handler.rs:392-449 | a run of three pages in which a client two pages behind is told about the last change only |
| `Sessions.EditedBehind` | src/awp/handler.rs:392-449 | a run in which a client one page behind is told of a change from a page that was edited since it got it |

## Left out

- Networking, TLS, redirects, HTML parsing, the SOM compiler and the browser; fetched texts, pages and child replies are
  inputs.
- The report around a robots decision: fetch failures, advisories in the output, the output size limit and the
  byte-bounded copy of the matched rule.
- Lossy UTF-8 decoding: a robots text is a sequence of Unicode scalar values, and replacement characters are counted in
  it.
- Real cryptography and random numbers: decryption succeeds exactly under the key that sealed; temporary names are drawn
  arbitrarily, and so are keys, but never the key that sealed the file just read.
- A second reading of a robots line: the grammar's groups are read from what the code takes a single line to say, with
  its trimming of Unicode white space, its agent syntax, its canonical patterns that may lack a slash, and its cut at
  `#`. An empty pattern matches nothing, and the octets of a match in section 2.2.2 of RFC 9309 are read as those that
  the pattern fixes.
- Rounding of fractions: a JSON float is a real number, of which only the integers are those that an `f64` holds, and
  literals are rounded before.
- Maps: a JSON object is its list of members, sorted by key and without repetition as `serde_json` keeps them, so
  equality goes member by member.
- Permission bits, symbolic links, directory syncs and power loss; a crash stops a process, not the machine.
- Recycled process ids, weak memory order and processes that leave their group: accesses to the shared cells are
  sequentially consistent and a kill reaches the whole tree.
- The guards of the supervisor and the store are fields of their state machines, not objects: the model does not
  capture their aliasing.
- The thread and queue plumbing of `InteractiveProcess`, its timeouts and its shutdown; the runner sees one exchange at
  a time.
- `validate_schema_value`, JSON pointers and serialised lengths are parameters of the runner; regular expressions and
  `multipleOf` therefore do not occur. The count of secrets in the report is left out.
- The catalog builder of `webmcp.rs` (forms, repeated fields, catalog limit) and the catalog parser of `ard.rs`: checks
  and appends without a law beyond their bodies.
- The cookie jar, cookie text forms and HTTP dates: the day-number functions carry the arithmetic.
- 64-bit wrap-around of session counters and request ids, which no run reaches.
- AWP parameter parsing, reply shapes, TLS and proxy options of a session, and all error message texts.
- RobotsDecision.Decide: does not list the selected agents and the advisories, because they are bounded copies for the
  report.
- RobotsStandard.OneRuleExact: counts as URLs what begins with a slash and holds no octet that both path and query encode;
  dot segments, and octets that only one of the two encodes, are not told apart.
- MatcherLaws.AnchoredExact: takes the same strings for targets, so the target that shows a pattern unsafe may be one of
  those.
- Json.ValidateItems: leaves the width of the list itself to the caller, which checks it before the loop.
- Calendar.RoundTripIff: day counts are unbounded, and the sum `days as i64 + 719468` does not wrap.
- RobotsDecision.SortMatching: models the library's stable sort by insertion, because only order and permutation are used.
- ActionPlan.MakeItem: copies the attributes that enablement, lookups and the cache key read, and not the others, because
  those are copied without a condition.
- ActionPlan.GetActionPlan: leaves out the form attributes an item copies from its region.
- Elements.EditInList: models the edit through mutable references on values, because elements own their children and
  are never aliased.
- ActionPlan.ActionOrderDoesNotMatter: the hash of the parts is a parameter, because equal parts give equal keys under
  any hash.
