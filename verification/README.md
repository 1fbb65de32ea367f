# Mir[AI]ge: a verified model

Mir[AI]ge watches the logs of a portal, decides which visitors are AI-driven intruders, and moves them to a
ghost shell behind the same load balancer. This project models the parts of it that have real state, parsing or
arithmetic, and proves what they promise:

- **Sigma rules** (`sigma_lexer.dfy`, `sigma_condition.dfy`, `sigma_rules.dfy`): the condition language of tier 0. The
  evaluator computes a boolean while it parses, with a cursor. It is proved to read exactly the syntax trees of the
  language, on every token list, and printing, tokenising and evaluating a tree gives its meaning back.
- **Morph state machine** (`fsm_spec.dfy`, `fsm_theorems.dfy`, `fsm_outcomes.dfy`, `fsm.dfy`): one run, as a function of every answer its
  environment gives; any save, call or sleep may fail or be the point of cancellation.
- **Morph store** (`morph_model.dfy`, `store.dfy`): an insertion-ordered dict and a Redis hash with an order list.
- **Rate limiters** (`ratelimit.dfy`, `token_bucket.dfy`): the sliding-window login limiter and the token bucket.
- **Reroute backends** (`octavia.dfy`, `redis_flags.dfy`): L7 policies created in several fallible calls, and Redis flags
  with a joined rollback token.
- **Text boundaries** (`utf8.dfy`, `white_space.dfy`, `tarpit.dfy`, `stream_reader.dfy`): the byte cap on responses, and the console's
  incremental reader of newline-delimited JSON, from bytes to documents.
- **Detection cascade** (`tier1.dfy`, `recon.dfy`, `sentinel.dfy`, `sentinel_runs.dfy`): the counters, windows,
  cooldowns and recon records of the sentinel, the feature arithmetic and scoring of tier 1, and whole runs in which
  requests give way to each other while they wait for tier 2.
- **User store** (`users.dfy`): create, change and delete, without losing the last admin.

Classes mirror the objects that the code changes in place; their methods are tied to functions or stated outright,
and the theorems are lemmas about those functions.

Some promises turn out to hold only under a condition, which is then proved to be exact:

- A Sigma selection can be named in a condition only if its name is a lower-case word that is no keyword, because the
  condition text is lower-cased and the names are not (`NameWorksExactlyWhenGood`).
- Recorded rule ids are overwritten if the load balancer reports a time that `datetime` cannot represent: the ids are
  recorded before the conversion fails and the step is retried (`OverwrittenExactlyOutOfRange`).
- A morph ends without any terminate call for its session exactly when its last rollback starts with a recorded
  session, no terminate call was issued before, and the save of ROLLBACK fails or is cut (`ReleasedExactly`); such a
  run exists (`FailedSaveLeaks`).
- The two stores agree on every sequence of calls that saves only present contexts, and one absent save is enough to
  tell them apart (`AgreementExactlyWithoutAbsentSave`). The orchestrator issues one when a signal arrives and the
  finished morphs do not outnumber the store's excess over its bound: the new context is then evicted at once, and
  otherwise it stays (`NewcomerStaysExactly`). Adding a present context twice, on the other hand, is harmless.
- A token bucket with a rate below one never grants anything (`ServedExactlyFromRateOne`).
- Of two reroutes that both return, the second one reroutes its own session exactly if the request ids differ in their
  first eight characters or the session is the same; otherwise it is answered with the first one's policy
  (`Octavia.OctaviaAdapter.RerouteBoth`).
- A rollback token undoes the flags only if no flag name contains `|` (`CleanupUndoesExactlyBarFreeKeys`).
- The recon check is said to fire once per IP. It fires exactly when enough families were touched since the IP's last
  silence longer than the horizon, none of these touches fired, and the key is not cooling down (`ReconFiresExactly`);
  so an IP can be reported twice (`ReportedTwice`), but only across such a silence (`LawfulFiresOncePerSilence`).
- Popping old hits from the left counts the window right at every reading exactly when the readings are in order
  (`PoppingCountsExactlyInOrder`), which the monotonic clock ensures.
- An AI-paced window that shows only the lower path signal scores 0.35 + 0.05, on the limit of benign, where rounding
  decides (`AiPacedBenignExactlyWithoutSignals`).
- Deleting a user can remove the last admin if the file holds a name twice (`DuplicateAdminsCanAllGo`).

`dafny verify dfyconfig.toml` checks the whole project.

## Model

| member | source | states |
|---|---|---|
| SigmaLexer.SplitIsLex | services/sentinel/tier0.py:62 | padding both parentheses with blanks and splitting on white space yields words and single parentheses, in text order |
| SigmaLexer.TokensShape | services/sentinel/tier0.py:26-62 | every token is a parenthesis or a blank-free word, in lower case |
| SigmaLexer.LowerIsLowerCase | services/sentinel/tier0.py:26-67 | lower-casing leaves no upper-case letter, and changes a letter to the same one in lower case and nothing else |
| SigmaCondition.EvaluatesExactlyTheTrees | services/sentinel/tier0.py:78-111 | evaluating while parsing returns v and leaves a rest exactly when the tokens are those of a syntax tree of meaning v, followed by a rest that does not continue it; missing operands count as false |
| SigmaCondition.RaisesExactlyWithoutTree | services/sentinel/tier0.py:70-114 | the evaluator raises exactly when no tree can be read, whatever the selections say, and then some "(" opens a whole condition not directly followed by ")" |
| SigmaCondition.RaisesAtUnclosed | services/sentinel/tier0.py:83-87 | where the evaluator raises there is a "(", then a whole condition, then no ")" |
| SigmaCondition.ReadingsAgree | services/sentinel/tier0.py:94-108 | however a token list is grouped into trees, its meaning is the same |
| SigmaCondition.RoundTrip | services/sentinel/tier0.py:61-111 | printing any tree over good names with parentheses only where precedence needs them (not over and over or), then tokenising and evaluating, gives the tree's boolean meaning |
| SigmaCondition.ValueIgnoresBadNames | services/sentinel/tier0.py:26-90 | only lower-case, blank-free, non-keyword names are ever looked up |
| SigmaCondition.NameWorksExactlyWhenGood | services/sentinel/tier0.py:26-90 | a condition that is one selection name evaluates to that selection under all truth tables if and only if the name is a good one |
| SigmaCondition.UnknownNamesAreFalse | services/sentinel/tier0.py:88-90 | a name that no selection has counts as false |
| SigmaCondition.NotBindsBeforeAnd | services/sentinel/tier0.py:78-100 | "not a and b" negates a alone |
| SigmaCondition.AndBindsBeforeOr | services/sentinel/tier0.py:94-108 | in "a or b and c" the and is evaluated first |
| SigmaCondition.ParenthesesBindFirst | services/sentinel/tier0.py:83-87 | "not (a or b) and c" negates the whole or |
| SigmaRules.ConditionEvaluator.Consume | services/sentinel/tier0.py:70-76 | consume returns the token ahead and moves the cursor by one, or raises on another token without moving |
| SigmaRules.ConditionEvaluator.ParseFactor | services/sentinel/tier0.py:78-92 | the cursor-based routine terminates, never passes the end, and gives the value, rest and failure of the specified factor |
| SigmaRules.ConditionEvaluator.ParseTerm | services/sentinel/tier0.py:94-100 | the same for a chain of "and", evaluated left to right |
| SigmaRules.ConditionEvaluator.ParseExpr | services/sentinel/tier0.py:102-108 | the same for a chain of "or" |
| SigmaRules.SplitKey | services/sentinel/tier0.py:32-35 | a selection key is cut at its first bar; without one the modifier is "equals" |
| SigmaRules.ContainsIsOccurrence | services/sentinel/tier0.py:42-44 | the "contains" modifier holds exactly when the pattern stands somewhere in the attribute |
| SigmaRules.EvalSelection | services/sentinel/tier0.py:28-48 | a selection holds exactly when every field test has some pattern that stands somewhere in the attribute, or is equal to it |
| SigmaRules.TruthTableIsExact | services/sentinel/tier0.py:53-59 | the truth table has an entry for every selection but "condition", true exactly if the selection holds of the event |
| SigmaRules.Match | services/sentinel/tier0.py:50-129 | a rule hits exactly when its condition is true of its selections, and the hit carries the reported attributes; a condition that raises gives no hit, and a selection that is no mapping makes the call raise |
| SigmaRules.MatchEvent | services/sentinel/tier0.py:159-170 | the hits come from the rules that fire, one each, in rule order; one malformed rule makes the call raise |
| SigmaRules.RuleMeansItsTree | services/sentinel/tier0.py:50-111 | a rule whose condition prints a tree fires exactly on the events that satisfy the tree |
| FsmTheorems.RunIsBounded | services/orchestrator/state_machine.py:60-118 | whatever fails or is cancelled, a run makes at most 12 attempts, backs off at most 24 s, issues at most 10 calls and never meets the cap of 15 steps |
| FsmTheorems.RunShape | services/orchestrator/state_machine.py:60-209 | with saves that do not fail, an uncancelled run enters DETECTING, IDLE, or the four steps in order, each tried 1 to 3 times (monitoring once), then IDLE, or such a prefix whose last step was tried exactly 3 times, then ROLLBACK, ERROR; its attempts are these tries, and it backs off 2 s before a second and 4 s before a third try |
| FsmOutcomes.StepsSucceedExactly | services/orchestrator/state_machine.py:120-177 | a step succeeds if and only if each of its awaits is answered, the reported time is a date, and the ids to tear down are there |
| FsmOutcomes.SmoothRun | services/orchestrator/state_machine.py:60-177 | if every await is answered, a run takes each step once and ends in IDLE, with exactly these states, calls, recorded ids, expiry and sleeps |
| FsmOutcomes.IdleNeedsTermination | services/orchestrator/state_machine.py:167-177 | a morph at or above the gate returns to IDLE only if a terminate call was answered |
| FsmOutcomes.CancellationEndsTheRun | services/orchestrator/state_machine.py:97-118 | a run cancelled at its k-th await ends right there, as cancelled: nothing is retried, slept for or rolled back inside it |
| FsmOutcomes.OnlyCancellationCancels | services/orchestrator/state_machine.py:97-118 | a run in which nothing is cancelled is not cancelled |
| FsmOutcomes.TerminalExactlyAtTheEnd | services/orchestrator/store.py:24 | the states by which the store tells finished morphs are those a run is in at its end, and at no time before |
| FsmOutcomes.ExpiryIsReported | services/orchestrator/state_machine.py:145-149 | the expiry of a morph, if any, is a time that the load balancer reported plus the TTL |
| FsmTheorems.DriveReleases | services/orchestrator/main.py:144-155 | however a morph's coroutine ends, cancelled at any await or not: a rule implies a session, the session id was recorded once, and a terminate call with exactly the recorded ids was attempted, unless the very last await was the save of ROLLBACK and it failed or was cut |
| FsmTheorems.ReleasedExactly | services/orchestrator/state_machine.py:83-118 | for every run, cancelled or not, the release was attempted if and only if there was no rollback, or its start had no session or a terminate call already, or the save of ROLLBACK answered |
| FsmTheorems.RollbackLeaksExactly | services/orchestrator/state_machine.py:187-209 | the same for one rollback from any state |
| FsmTheorems.RollbackCalls | services/orchestrator/state_machine.py:187-209 | a rollback asks to tear down exactly the recorded ids, once, if there is a non-empty session and its first save answers, and else nothing |
| FsmTheorems.LoopGivesUpAt | services/orchestrator/state_machine.py:83-118 | a retry loop that gives up ends with exactly the rollback from there; any other one went through and has released, or was cancelled |
| FsmTheorems.SavedRunReleases | services/orchestrator/state_machine.py:187-209 | an uncancelled run whose saves do not fail always attempts the release |
| FsmTheorems.FailedSaveLeaks | services/orchestrator/state_machine.py:187-209 | from every fresh morph such a leak is reachable: a run exists whose recorded session is never asked to be torn down |
| FsmTheorems.CallsFollowTheSteps | services/orchestrator/state_machine.py:120-201 | calls come in the order allocate, reroute, terminate, name the morph's own request, and every terminate call carries the ids the context ends up with |
| FsmTheorems.RuleRecordedOnce | services/orchestrator/state_machine.py:134-149 | with times in range, rule ids are recorded at most once in every run |
| FsmTheorems.OverwrittenExactlyOutOfRange | services/orchestrator/state_machine.py:134-149 | for a given reported time, rule ids are recorded at most once if and only if the time is in range |
| FsmTheorems.MonitoringLastsTheTtl | services/orchestrator/state_machine.py:151-165 | monitoring that is not cancelled sleeps for exactly the TTL, or not at all when it is not positive |
| Fsm.MorphStateMachine.Transition | services/orchestrator/state_machine.py:213-225 | the context is in its new state before the save is awaited; the save decides how the transition ends |
| Fsm.MorphStateMachine.Assign | services/orchestrator/state_machine.py:120-132 | one attempt of the first step, for every answer of the environment |
| Fsm.MorphStateMachine.Reroute | services/orchestrator/state_machine.py:134-149 | one attempt of the second step; ids are recorded before the expiry is computed |
| Fsm.MorphStateMachine.Monitor | services/orchestrator/state_machine.py:151-165 | one attempt of the third step, tick by tick |
| Fsm.MorphStateMachine.Terminate | services/orchestrator/state_machine.py:167-177 | one attempt of the last step, with the recorded ids |
| Fsm.MorphStateMachine.DoRollback | services/orchestrator/state_machine.py:187-209 | the rollback: release if a session was recorded, swallow a failed call, end in ERROR |
| Fsm.MorphStateMachine.Retry | services/orchestrator/state_machine.py:84-118 | the inner loop tries one step until it succeeds or the run has ended, as the specified loop does |
| Fsm.MorphStateMachine.Run | services/orchestrator/state_machine.py:60-118 | a run changes the context and issues calls exactly as specified, for every environment |
| Fsm.MorphStateMachine.Drive | services/orchestrator/main.py:144-161 | a cancelled run is rolled back, any other exception ends the coroutine |
| MorphStore.InMemoryMorphStore.EvictTerminal | services/orchestrator/store.py:67-73 | the loop over a snapshot of the dict leaves what the eviction function says |
| MorphStore.RedisMorphStore.EvictTerminal | services/orchestrator/store.py:125-138 | from any state, also one with stale ids in its order list, the loop computes the specified eviction of the hash and the order list |
| MorphStore.ValidEvict | services/orchestrator/store.py:125-138 | without stale ids, exactly the evicted ones leave the order list |
| MorphStore.FullSweepRepairsOrder | services/orchestrator/store.py:129-138 | an eviction that cannot reach the bound leaves neither a stale nor a finished id in the order list, whatever was in it |
| MorphStore.RedisMorphStore.Add | services/orchestrator/store.py:97-100 | the hash field is set and the id is appended to the order list, even if it is there already |
| MorphStore.RedisMorphStore.Save | services/orchestrator/store.py:102-103 | only the hash field is set |
| MorphStore.EvictionIsExact | services/orchestrator/store.py:67-73 | eviction removes exactly the oldest n terminal entries, n = min(#terminal, max(0, size - max)), keeps all others unchanged in order, and ends within max or without a terminal entry |
| MorphStore.EvictedIsExcess | services/orchestrator/store.py:67-73 | as many go as the store exceeds its bound, or all the finished ones if they are fewer |
| MorphStore.StoreTellsWhatItHolds | services/orchestrator/store.py:38-65 | a context is found under its id once added or saved, other ids are not affected, and what is contained, counted and listed is what is found |
| MorphStore.BackendsAgree | services/orchestrator/store.py:38-139 | on every sequence of calls that saves only present contexts, both backends give the same answers |
| MorphStore.AgreementExactlyWithoutAbsentSave | services/orchestrator/store.py:38-139 | a call keeps the backends indistinguishable under all disciplined continuations if and only if it is not a save of an absent context |
| MorphStore.ReceiveKeepsInFlight | services/orchestrator/main.py:120-133 | a signal is accepted exactly when its request is new; no in-flight morph is lost, and the store ends within its bound or full of in-flight morphs |
| MorphStore.NewcomerStaysExactly | services/orchestrator/main.py:129-137 | for every store, over its bound or not, a new context survives its own arrival if and only if the finished morphs outnumber the excess over the bound; if not, the first save of its run is an absent save |
| MorphStore.FullStoreEvictsTheNewcomer | services/orchestrator/main.py:129-137 | a store filled to its bound with in-flight morphs is unchanged by a signal that it accepts |
| RateLimit.Limiter.Prune | services/api/ratelimit.py:28-32 | exactly the stale keys are dropped, and nothing that could matter later |
| RateLimit.Limiter.CheckAndRecord | services/api/ratelimit.py:35-56 | an attempt is accepted exactly when fewer than limit earlier accepted attempts of its IP lie in the window of the full history, and is recorded exactly then |
| RateLimit.PopOld | services/api/ratelimit.py:47-50 | popping old hits leaves exactly as many as the window of the full history holds |
| RateLimit.Replay | services/api/ratelimit.py:35-56 | run on any attempts in clock order, with any bound on keys, the limiter accepts what the specification over the full history accepts |
| RateLimit.NeverMoreThanLimit | services/api/ratelimit.py:41-56 | over every run and for every time t, at most limit attempts of one IP are accepted in (t - window, t] |
| RateLimit.InWindowIsNumber | services/api/ratelimit.py:47-52 | the specification counts exactly the times in (now - window, now] |
| RateLimit.OthersDoNotMatter | services/api/ratelimit.py:41-56 | what an IP gets depends on its own attempts alone |
| RateLimit.PoppingCountsExactlyInOrder | services/api/ratelimit.py:41-52 | popping old hits leaves as many as are alive, at every cutoff, if and only if the readings are in order |
| TokenBucket.TokensInRange | services/orchestrator/mcp_client.py:23-44 | over every legal life of the bucket its tokens stay in [0, rate] |
| TokenBucket.RateBound | services/orchestrator/mcp_client.py:29-44 | at most rate + rate * (t - s) grants fall in any interval [s, t] |
| TokenBucket.CountInIsNumber | services/orchestrator/mcp_client.py:23-44 | the bound counts exactly the grants in the closed interval |
| TokenBucket.OneNapIsEnough | services/orchestrator/mcp_client.py:39-44 | with rate >= 1 and a sleep at least as long as asked, the wait loop runs once |
| TokenBucket.ServedExactlyFromRateOne | services/orchestrator/mcp_client.py:39-44 | a waiting caller is served after one honest sleep from every state if and only if rate >= 1 |
| TokenBucket.TokenBucket.Acquire | services/orchestrator/mcp_client.py:29-44 | an acquire is a legal sequence of refills, one per reading, ending in one token taken exactly when one is there |
| Octavia.OctaviaAdapter.Reroute | services/mcp_server/backends/octavia.py:53-146 | policies of other names are untouched; from at most one policy of the name, an attempt that returns leaves exactly one with exactly this session's rule, and returns its id, if and only if there was none, or it was that one, or an orphan that could be read and deleted; it raises exactly when a call on the way does; a settled reroute is repeated without effect |
| Octavia.OctaviaAdapter.CreateWithRule | services/mcp_server/backends/octavia.py:111-146 | creation appends the policy and then its rule; interrupted, it leaves nothing, an orphan, or the finished policy, as its first failure decides |
| Octavia.OctaviaAdapter.RetryReroute | services/mcp_server/backends/octavia.py:61-146 | after any interrupted attempts, the first one that returns has settled the reroute; and one does return if some attempt meets no call that raises |
| Octavia.OctaviaAdapter.Purge | services/mcp_server/backends/octavia.py:157-174 | a purge deletes the reroute policies whose delete takes effect, counts those whose delete returns, and leaves all others in order; if a lookup or the listing raises, nothing changes |
| Octavia.PurgeIsComplete | services/mcp_server/backends/octavia.py:157-174 | a purge whose deletes take effect leaves no reroute policy and changes no other |
| Octavia.PurgeForgetsEveryRequest | services/mcp_server/backends/octavia.py:157-174 | after it no request, whatever its id, finds a policy of its name |
| Octavia.RemoveFirst | services/mcp_server/backends/octavia.py:61-80 | deleting the first policy of a name by its id deletes just that one |
| Octavia.OctaviaAdapter.RerouteBoth | services/mcp_server/backends/octavia.py:53-146 | two reroutes that could each settle: the second settles its own session if and only if the ids differ in their first eight characters or the session is the same; otherwise it gets the first one's policy |
| Octavia.NamesCollide | services/mcp_server/backends/octavia.py:59 | two requests share their policy name if and only if the first eight characters of their ids are equal, or the whole ids are when one is shorter |
| Octavia.NamedIsExact | services/mcp_server/backends/octavia.py:62-65 | the policies of a name are exactly those that carry it |
| Octavia.KeptIsExact | services/mcp_server/backends/octavia.py:157-174 | a policy survives a purge if and only if it is no reroute policy or its delete has no effect |
| Octavia.CountedIsNumber | services/mcp_server/backends/octavia.py:157-174 | a purge counts exactly the reroute policies whose delete returns |
| RedisFlags.RedisFlagAdapter.Reroute | services/mcp_server/backends/redis_flag.py:45-69 | the session's flag and each IP's flag are set, in that order, and the token joins their names |
| RedisFlags.KeysAreExact | services/mcp_server/backends/redis_flag.py:57-67 | the flags are the one of the session, if there is one, and then one for each IP, in order |
| RedisFlags.RedisFlagAdapter.Cleanup | services/mcp_server/backends/redis_flag.py:80-87 | exactly the flags named by the non-empty parts of the token (or else of the rule id) are deleted |
| RedisFlags.SplitJoin | services/mcp_server/backends/redis_flag.py:68-85 | splitting the joined token recovers exactly the names, in order, when none contains the separator |
| RedisFlags.CleanupUndoesExactlyBarFreeKeys | services/mcp_server/backends/redis_flag.py:57-87 | reroute then cleanup leaves the earlier flags minus those written, and touches nothing else, if and only if no flag name contains the separator |
| RedisFlags.TerminateAfterTtl | services/mcp_server/backends/base.py:62-85 | the flags are undone exactly when the session is over (ended now, or 404); any other answer raises and leaves them |
| Utf8.DecodeEncoded | services/ghost_shell/tarpit.py:42-45 | an encoded scalar value is decoded again whatever follows it (section 3 of RFC 3629) |
| Utf8.CutIsShort | services/ghost_shell/tarpit.py:45 | an encoding cut inside a character is an unfinished character, never a wrong one |
| Utf8.CharIsEncoded | services/ghost_shell/tarpit.py:40-45 | a character that is decoded is encoded by exactly the bytes it was decoded from, so overlong forms and surrogates are not |
| Utf8.ShortIsPrefix | services/ghost_shell/tarpit.py:40-45 | what is left undecided is the beginning of a character |
| Utf8.BadIsMaximal | web/src/api.ts:123-129 | malformed bytes are given up at the first one that cannot continue what came before it |
| Utf8.RfcExamples | services/ghost_shell/tarpit.py:40-45 | the encodings of examples in section 7 of RFC 3629 |
| Tarpit.CapIsLongestPrefix | services/ghost_shell/tarpit.py:40-45 | the cap returns the longest code-point prefix whose encoding fits, and loses at most 3 bytes when it truncates |
| Tarpit.CapIsIdempotent | services/ghost_shell/tarpit.py:40-60 | capping twice is capping once |
| Tarpit.MetricsSeeWhatIsServed | services/ghost_shell/tarpit.py:57-66 | the metrics receive exactly the served text and its number of bytes |
| StreamReader.FeedInTwo | web/src/api.ts:123-128 | streaming decoding in two chunks, well formed or not, is decoding in one |
| StreamReader.FeedBad | web/src/api.ts:123-129 | malformed bytes come out as one replacement character, and decoding goes on behind them |
| StreamReader.CarryIsUnfinished | web/src/api.ts:123-129 | only the beginning of a character is carried to the next chunk |
| StreamReader.LinesAreTheText | web/src/api.ts:129-133 | splitting loses and adds nothing: the lines with their newlines, and then the rest, are the text |
| StreamReader.TrimmedAre | web/src/api.ts:131 | exactly the 25 characters that trimming removes |
| WhiteSpace.StripIsExact | web/src/api.ts:131 | stripping takes white space off both ends, all of it and nothing else |
| WhiteSpace.SpacesAre | services/sentinel/tier0.py:62 | exactly the 29 characters on which text is split and stripped in Python |
| StreamReader.Reader.Read | web/src/api.ts:125-141 | after every read, buffer and messages are those of all bytes received, and the buffer holds no newline |
| StreamReader.Reader.SplitBuffer | web/src/api.ts:129-140 | the inner loop emits the complete lines of the buffer that parse, trimmed and in order, and keeps the rest |
| StreamReader.OpenStream | web/src/api.ts:122-141 | what is emitted depends only on the concatenated bytes, not on the chunks |
| StreamReader.ClientGetsTheDocuments | services/api/main.py:328-331 | if the server ends each document with a newline, the client gets exactly those documents in order, however the bytes are cut |
| StreamReader.ClientGetsAPrefix | web/src/api.ts:125-141 | at every moment the client has the first few of the server's documents |
| Tier1.GapsTelescope | services/sentinel/tier1.py:77-96 | the inter-arrival gaps add up to the span of the window |
| Tier1.FeaturesAreExact | services/sentinel/tier1.py:66-121 | each feature of a window is the number it is named after |
| Tier1.EmptyWindowHasNoFeatures | services/sentinel/tier1.py:66-75 | the features of an empty window are all zero |
| Tier1.WeightsAre | services/sentinel/tier1.py:198-243 | the confidence is the capped sum of these weights |
| Tier1.ScoreIsMonotone | services/sentinel/tier1.py:198-243 | more of any signal never lowers the confidence |
| Tier1.WhatTriggers | services/sentinel/tier1.py:198-243 | speed and pace do not trigger by themselves, but do together with any one strong content signal; a slow window without pace and Sigma hits never triggers |
| Tier1.FastWindowIsAiPaced | services/sentinel/tier1.py:77-102 | a window of at least two events, positive span and more than 5 requests per second has a mean gap under 400 ms |
| Tier1.FastWindowIsNeverBenign | services/sentinel/tier1.py:198-258 | the heuristic gives such a window a confidence in [0.45, 1], which the cascade never counts as benign |
| Tier1.AiPacedBenignExactlyWithoutSignals | services/sentinel/tier1.py:198-243 | however its score is rounded, an AI-paced window is benign if and only if it shows no other signal, or only the lower path band, which puts it on the limit, and is rounded down |
| Tier1.HeuristicScore | services/sentinel/tier1.py:200-244 | the accumulated score is the capped sum of its signals, in [0, 1] |
| Tier1.HeuristicPredict | services/sentinel/tier1.py:198-258 | which vector is chosen, by exact conditions |
| Sentinel.CountersConserveEvents | services/sentinel/main.py:284-439 | every event is counted in exactly one place, tier by tier |
| Sentinel.CountersAreNumbers | services/sentinel/main.py:284-439 | each counter is the number of events that stopped in, or passed through, its tier |
| Sentinel.ClassifiesExactly | services/sentinel/main.py:299-423 | which outcome an event has, by exact conditions for each: the order of the gates, a window of three, and confidences from 0.85 and below 0.40 |
| Sentinel.KeysFollowTheSession | services/sentinel/main.py:287-288 | events of one session share window and cooldown whatever their IPs; those without a session share them exactly by IP |
| Sentinel.SlidIsExact | services/sentinel/main.py:47-48 | an event's window is the end of what it held and the event, at most 500 long; what is missing was pushed out or is more than 10 s old |
| Sentinel.CleanupIsInvisible | services/sentinel/main.py:273-282 | the periodic cleanup changes no later window of any event |
| SentinelRuns.Interleave | services/sentinel/main.py:267-516 | any requests, interleaved in any way while they wait for tier 2, with canaries in between, whatever the clocks read: each request's events are begun in order and the outcomes and touches are those of these events; at every point the counters tally the outcomes and conserve events; each request's count is the number of signals it queued; a request that gets turns enough is done; signals of one key are a cooldown apart; the recon count is the number of touches that fired, at most one of an IP between two long silences |
| SentinelRuns.Turn | services/sentinel/main.py:284-437 | one turn of a request goes up to its next question to tier 2 or the end of one event, and adds exactly that event's outcome and touch, and at most one signal of this request, to the account |
| Sentinel.Cascade.CanaryHit | services/sentinel/main.py:457-516 | a followed canary is counted, and queues a signal of its IP exactly when the IP is not cooling down |
| SentinelRuns.ReportedTwice | services/sentinel/main.py:78-107 | for any IP and cooldown, a run whose only touches are six of that IP, of which the third and the sixth fire, with a silence longer than the horizon between them |
| Sentinel.Cascade.Step | services/sentinel/main.py:284-422 | each event stops in exactly one place, or goes on to tier 2, decided by exact conditions; this moves exactly that place's counters and updates the record of its IP; a signal is queued exactly when the place is alarming and its key is not cooling down |
| Sentinel.Cascade.Begin | services/sentinel/main.py:284-422 | the same, keeping the counters equal to the numbers of outcomes, the signals spaced and the recon records explained by the touches; without a trained model a fast window of the event never ends as benign |
| Sentinel.Cascade.Resume | services/sentinel/main.py:422-437 | the answer of tier 2 is counted, and queues a signal exactly when it reaches the threshold and the key is not cooling down |
| Sentinel.Cascade.IngestOne | services/sentinel/main.py:284-437 | one event together with its answer of tier 2: where it stops, its effect on the recon records and the account, and no fast window counted as benign |
| Sentinel.Cascade.IngestLogs | services/sentinel/main.py:268-439 | the loop over a request that is not interrupted handles every event, answers every question to tier 2, and counts exactly the signals it queued |
| Sentinel.Cascade.ReconCheck | services/sentinel/main.py:78-107 | a recon signal is queued exactly when the IP's record reaches three families, has not fired, and the key is not cooling down |
| Sentinel.Cascade.CooldownCheck | services/sentinel/main.py:194-203 | a key is suppressed exactly within the cooldown of its last alert, which is otherwise renewed |
| Sentinel.Cascade.Cleanup | services/sentinel/main.py:273-282 | every window is pruned and exactly the empty ones are forgotten |
| Sentinel.FastWindowNotCountedBenign | services/sentinel/main.py:373-417 | without a trained model the cascade never counts an event with a fast window as benign |
| Sentinel.ReconFiresExactly | services/sentinel/main.py:78-92 | over any history, the recon check fires if and only if enough families were touched since the last long silence of the IP, no touch since then fired, and the key is not cooling down |
| ReconBreadth.RecordIsSinceSilence | services/sentinel/main.py:84-92 | a recon record holds exactly what its IP has touched since its last long silence |
| ReconBreadth.NoSilenceSinceStart | services/sentinel/main.py:84-87 | the start of a record is where the last long silence of the IP ended |
| ReconBreadth.SilenceBetweenFirings | services/sentinel/main.py:78-92 | between any two firings of one IP there is a silence of more than 300 s, after which at least three families were touched |
| ReconBreadth.LawfulFiresOncePerSilence | services/sentinel/main.py:78-92 | between two firings of one IP there is a silence longer than the horizon, and enough families were touched after it |
| ReconBreadth.OneMoreTouch | services/sentinel/main.py:84-92 | every touch keeps the records in force equal to what the history of touches leaves |
| Sentinel.SpacedPairs | services/sentinel/main.py:194-203 | outside the stub mode any two signals of one key are at least the cooldown apart |
| Sentinel.AlertKeepsOrder | services/sentinel/main.py:194-203 | an alert that is not suppressed keeps all signals spaced |
| Sentinel.PruneWindow | services/sentinel/main.py:179-191 | the loop drops the old events at the front of a window |
| Sentinel.PruneDropsOnlyOld | services/sentinel/main.py:179-191 | pruning drops only old events, and if events arrive in order keeps exactly the recent ones |
| Users.UserStore.CreateUser | services/api/auth.py:201-214 | accepted exactly for a non-blank new name, a known role and a password; then one hashed entry is appended |
| Users.UserStore.SetRole | services/api/auth.py:217-228 | changes the role of the first entry of the name only, refuses to demote the last admin, and never loses one |
| Users.UserStore.SetPassword | services/api/auth.py:231-241 | replaces any plaintext by a hash in the first entry of the name only |
| Users.UserStore.DeleteUser | services/api/auth.py:244-252 | removes all entries of the name, unless it is unknown or the last admin's |
| Users.UserStore.Administer | services/api/auth.py:193-252 | from unique names and an admin, every sequence of calls, accepted or refused, keeps both |
| Users.SoundIsExact | services/api/auth.py:193-199 | what is kept: any two entries have different names, and some entry is an admin's |
| Users.FindIsFirst | services/api/auth.py:193-194 | the entry acted on is the first of its name |
| Users.RoleRefusedExactly | services/api/auth.py:217-228 | a role change is refused for the last admin if and only if it would leave none |
| Users.DeleteRefusedExactly | services/api/auth.py:244-252 | with unique names, a delete is refused for the last admin if and only if it would leave none |
| Users.DropIsExact | services/api/auth.py:244-252 | a delete drops exactly the entries of the name and keeps the others in order |
| Users.AdminCountIsNumber | services/api/auth.py:197-198 | the count of admins is the number of entries with that role |
| Users.DeleteKeepsAnAdminExactly | services/api/auth.py:244-252 | a delete leaves an admin if and only if some admin has another name |
| Users.DuplicateAdminsCanAllGo | services/api/auth.py:244-252 | with duplicate names the guard of delete can accept a call that removes every admin |
| Users.UniqueDeleteKeepsAdmin | services/api/auth.py:244-252 | with unique names an accepted delete leaves an admin |

## Left out

- SigmaRules.Match: the attributes of an event and the patterns are strings, keys are strings, and lower-casing covers the ASCII letters; Python's lower-casing of other letters is not modelled.
- SigmaCondition.RaisesExactlyWithoutTree: Python's recursion limit, which turns very deep conditions into "no hit", is not modelled.
- Fsm.MorphStateMachine.Run: a call counts as issued when its await starts, so one cancelled while it waits for the token bucket counts too; log lines and the attacker persona are not modelled.
- MorphStore.BackendsAgree: each store call is one step and contexts are values at call time, so interleavings of Redis commands, the aliasing of live contexts in the dict, and JSON encoding are not modelled; the order in which Redis lists hash values is not either, so "all" is a set.
- RateLimit.Limiter.CheckAndRecord: clock readings arrive in order, as the monotonic clock and the absence of an await between reading it and recording ensure.
- TokenBucket.TokenBucket.Acquire: time is real, without rounding; the asyncio lock that serialises acquires is not modelled.
- Octavia.OctaviaAdapter.Reroute: the lookups of load balancer, listener and pool are one input that says whether they all succeed; policy positions and the branch for a missing session after creation, which no caller reaches, are not modelled.
- RedisFlags.RedisFlagAdapter.Reroute: the expiry of flags is not modelled, and their purge would add only an easy member.
- Tarpit.CapIsLongestPrefix: the cap is not negative; texts with lone surrogates cannot be encoded and are not modelled.
- StreamReader.OpenStream: what parses as JSON is a parameter, and exceptions of the message callback are not modelled; a byte order mark needs no case of its own, because trimming removes it from the first line anyway.
- Tier1.FastWindowIsNeverBenign: the lower bound of 0.45 is that of real numbers; in floating point 0.35 + 0.10 is just below it. The band it falls in does not depend on the rounding, which is also proved.
- Tier1.HeuristicPredict: user-agent entropy, Sigma hits and OWASP coverage are inputs, and the 95th percentile gap, which the heuristic does not read, is not modelled.
- SentinelRuns.Interleave: a reset while a request waits, exceptions in the rules or inside the recon check, and the expiry of stored verdicts are not modelled; signals of the stub mode are not spaced, and a negative cooldown is not considered.
- Sentinel.Cascade.Begin: the OWASP family of a path is an input, and so are the Sigma hits, the suspicion gate, the rate that the stub mode reads, and the trained model.
- Users.UserStore.CreateUser: password hashing is an uninterpreted constructor; files, locks and the loading of users for authentication are not modelled.
- HTTP handlers, HMAC and PBKDF2, the trained model, the language-model classifier, Redis, openstacksdk and the web pages are outside the model.
- The mock reroute backend, the decoy content, the credential graph and the attack simulator would add only easy members.
