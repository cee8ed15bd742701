# Recursive Emergence Framework — a Dafny model of its core

The Recursive Emergence Framework (REF) is a small Python and React
repository built around a bounded state-evolution loop. It has the following parts:

- A `Recursor` logs a numeric state at each depth and stops when the state's
  normalised spread (its *tension*) exceeds a threshold, when the next state
  has converged, or when the depth limit is reached.
- A `GlyphEngine` hashes states into short hexadecimal "glyphs".
- `run_recursive_engine` runs the Recursor and then reads a glyph trace that
  the Recursor does not have, so it raises instead of returning (see
  "## Findings").
- Around that loop sit the helpers that make up the rest of the core:
  - two reflection agents (`Sareth` in `test_tools.py`, `SarethV2`);
  - text probes (`auto_truth_scan.py`);
  - the Reality Verification Engine (RVE): claim scoring and drift history in
    `rve/ledger.py`, its environment settings in `rve/config.py`, its keyword
    glyph detectors in `rve/glyphs.py`, and the explanation panel of its page;
  - the Codex policy checks;
  - prompt assembly for the chat coach (`sareth_chat.py`);
  - two front-end components, an onboarding question flow and an accordion
    sidebar.

There is one module per source file:

| module | source | file |
|---|---|---|
| `Evaluator` | `evaluator.py` | `evaluator.dfy` |
| `Memory` | `memory.py` | `memory.dfy` |
| `Logger` | `logger.py` | `logger.dfy` |
| `Recursor` | `recursor.py` | `recursor.dfy` |
| `Glyphs` | `glyph_engine.py` | `glyph_engine.dfy` |
| `RefEngine` | `ref_engine.py` | `ref_engine.dfy` |
| `TestTools` | `test_tools.py` | `test_tools.dfy` |
| `SarethV2` | `sareth_v2.py` | `sareth_v2.dfy` |
| `Ledger` | `rve/ledger.py` | `ledger.dfy` |
| `VerificationPage` | `pages/Reality_Verification_Engine.py` | `verification_page.dfy` |
| `CodexChecks` | `codex/checks.py` | `codex_checks.dfy` |
| `AutoTruthScan` | `auto_truth_scan.py` | `auto_truth_scan.dfy` |
| `RveGlyphs` | `rve/glyphs.py` | `rve_glyphs.dfy` |
| `SarethChat` | `sareth_chat.py` | `sareth_chat.dfy` |
| `RveConfig` | `rve/config.py` | `rve_config.dfy` |
| `Onboarding` | `frontend/src/components/OnboardingPrompts.js` | `onboarding.dfy` |
| `InfoSidebar` | `frontend/src/components/InfoSidebar.js` | `info_sidebar.dfy` |

Two shared modules support them:

- `Wrappers` (`wrappers.dfy`) holds `Option` and `Result`.
- `Text` (`text.dfy`) models the Python string operations the code uses:
  - `lower`, `in`, `strip` and `split()`;
  - `" ".join` and `"\n".join`;
  - splitting on one character;
  - decimal formatting and parsing.

How the model represents things:

- Mutable objects become immutable records, and every method becomes a function
  returning the updated record.
- Python's `None` becomes `Option`.
- A raised exception becomes the `Failure` branch of a `Result`.
- The following are parameters of the model:
  - the clock;
  - SHA-256 and `json.dumps`;
  - float formatting;
  - file and process I/O;
  - the file-system outcome of `os.makedirs`;
  - the text of the chat system prompt.

Behaviour of the code as written that a reader may not expect:

- `Recursor.run` (recursor.py:24-29) stores the state that entered an
  iteration only after that iteration's convergence test fails, so a run
  that stops early leaves its last state out of memory.
- On a convergence stop, `Recursor.run` returns the state that entered the
  iteration, not the successor that converged (recursor.py:25-27, 32).
- A `Recursor` owns no glyph engine (recursor.py:7-12).
- `RVE_DATA_DIR` set to the empty string is not replaced by the default. It
  reaches `os.makedirs("")`, which raises.
- The verification page cannot run against `rve/ledger.py` as shipped. Only
  the scoring arithmetic of `add_claim` and the explanation panel are
  modelled. The page breaks in four places:
  - It imports `User` and `get_or_create_user` from `rve.ledger`
    (pages/Reality_Verification_Engine.py:10-11). Neither is defined there,
    so loading the page raises `ImportError`.
  - Its `add_claim(sess, user, ...)` call (line 135) does not match the
    signature at rve/ledger.py:87.
  - It filters claims on `Claim.user_id` (line 141). `Claim` has no such
    column (rve/ledger.py:23-35).
  - It calls `append_drift(sess, user, c, new_val)` with four arguments
    (line 165). `append_drift` takes three (rve/ledger.py:119).
- Toggling the same id twice restores the accordion only from a closed
  accordion or with that section open (`InfoSidebar.ToggleTwice`). With
  another section open, two toggles close everything
  (`InfoSidebar.ToggleTwiceFromOther`).
- `run_recursive_engine` labels a run "depth_limit" whenever the glyph count
  reaches the depth. An early stop in the very last iteration therefore gets
  the same label as a run that used up its depth.

## Model

| member | source | states |
|---|---|---|
| Evaluator.Recurse | evaluator.py:10-12 | the next state has the same length and every element grows by the factor 1.05; memory is ignored |
| Evaluator.IterateClosedForm | evaluator.py:10-12 | after n transitions element i equals 1.05^n times the seed's element i |
| Evaluator.TensionExceeds | evaluator.py:14-25 | the tension test fails (ZeroDivisionError) exactly when the state is non-empty and mean + 1e-9 is zero; an empty state has tension 0, compared against the threshold |
| Evaluator.TensionDecision | evaluator.py:22-25 | for the real number t = sqrt(variance)/(mean + 1e-9), the decision equals `t > threshold` |
| Evaluator.ConstantStateTension | evaluator.py:22-25 | a constant state has tension 0, unless its mean is exactly -1e-9, in which case the division raises |
| Evaluator.HasConverged | evaluator.py:27-37 | an empty argument or a non-positive threshold never counts as converged |
| Evaluator.ConvergenceDecision | evaluator.py:27-37 | for delta the Euclidean distance of the zipped states, convergence holds iff both states are non-empty and delta < threshold |
| Evaluator.HasConvergedSymmetric | evaluator.py:35 | convergence does not depend on the order of the two states |
| Evaluator.HasConvergedSelf | evaluator.py:27-37 | a state has converged with itself iff it is non-empty and the threshold is positive |
| Memory.EmptyMemory | memory.py:3-4 | a fresh memory has no latest state |
| Memory.StoreState | memory.py:6-7 | storing appends exactly one state, keeps all earlier ones, and makes it the latest |
| Memory.GetHistory | memory.py:9-10 | the history is empty iff there is no latest state; otherwise its last element is the latest state |
| Memory.Latest | memory.py:12-13 | `latest` is None iff the history is empty, else the last stored state |
| Memory.HistoryOfStores | memory.py:6-10 | a sequence of stores leaves the history as the old history followed by the stored states in order |
| Logger.LogState | logger.py:6-8 | logging appends one entry holding the given depth and state and keeps earlier entries |
| Logger.LogsInCallOrder | logger.py:6-8 | a sequence of log calls appends one entry per call, in call order |
| Recursor.NewRecursor | recursor.py:7-12 | a new recursor keeps the given depth limit and threshold, has no latest state in memory, and has an empty log |
| Recursor.Run | recursor.py:14-16 | with max_depth <= 0 the input is returned untouched and nothing is logged or stored |
| Recursor.RunSpec | recursor.py:14-32 | the run's outcome is characterised completely: the log holds the iterated states 1.05^i·input for depths 0..k-1, memory the first m of them, and the exit is a tension stop, a convergence stop, an error, or the depth limit with the last iterate |
| Recursor.LogDepthsInOrder | recursor.py:16-17 | one log entry per iteration started, depths 0, 1, 2, ... in order, never more than max_depth |
| Recursor.MemoryHoldsLoggedStates | recursor.py:17-29 | memory only receives states that entered an iteration, in the order they were logged |
| Recursor.LogMemoryBalance | recursor.py:16-30 | after an early stop the log has one more new entry than memory; at the depth limit both grow equally |
| Recursor.TensionStopReturnsEnteringState | recursor.py:19-22 | a tension stop returns the untransformed state that entered the iteration, whose tension exceeds the threshold, and does not store it |
| Recursor.ConvergenceReturnsPreTransitionState | recursor.py:24-27 | a convergence stop returns the state before the transition (which has converged with its successor) and does not store it |
| Recursor.DepthLimitReturnsLastState | recursor.py:16-32 | a run to the depth limit returns the max_depth-th iterate and memory gains exactly the iterates 0..max_depth-1 |
| Recursor.FinalStateLength | recursor.py:14-32 | any returned state has the input's length |
| Recursor.EmptySeedRunsToDepthLimit | recursor.py:14-32 | an empty seed with a non-negative threshold never stops early: every iteration is logged and [] is returned |
| Glyphs.EmptyEngine | glyph_engine.py:12-13 | a new engine has an empty trace |
| Glyphs.Generate | glyph_engine.py:15-19 | a glyph is 12 lowercase hex characters, a prefix of the hash of "depth:state", and the trace gains exactly (depth, glyph) |
| Glyphs.Trace | glyph_engine.py:21-22 | the accessor returns the trace, which is empty iff the engine is a fresh one; what the trace holds is stated by `Glyphs.TraceInCallOrder` |
| Glyphs.GenerateAllAppends | glyph_engine.py:15-19 | a sequence of generate calls appends, after the earlier trace, exactly one entry per call: its depth and the glyph of its (depth, state) |
| Glyphs.TraceInCallOrder | glyph_engine.py:15-22 | a sequence of generate calls extends the trace with one (depth, glyph) pair per call, in call order |
| Glyphs.PreHashInjective | glyph_engine.py:17 | the hashed text "depth:state" determines both the depth and the serialised state |
| RefEngine.Classify | ref_engine.py:10-12 | the last glyph is None iff the trace is empty, else the last trace glyph; the reason is "depth_limit" iff the trace length reaches the depth, else "complete" |
| RefEngine.SeedDenominatorPositive | ref_engine.py:5-7 | every state reachable from the seed [1.0, 2.0, 3.0] has a positive tension divisor, so the run never raises |
| RefEngine.RunRecursiveEngine | ref_engine.py:4-13 | the function as written never returns a report |
| RefEngine.AsWrittenAlwaysAttributeError | ref_engine.py:4-9 | for every depth and threshold the run returns normally and the `engine.glyph_engine` read then raises AttributeError |
| RefEngine.RunRecursiveEngineWired | ref_engine.py:4-13 | with a glyph generated per logged iteration the call always returns a report: its state is the state the Recursor's run of the seed returns (that run never raises), and its reason is "depth_limit" or "complete" |
| RefEngine.WiredLabels | ref_engine.py:9-13 | with one glyph per logged iteration the call succeeds, returns the run's final state, has no glyph iff depth <= 0, and labels every depth-limit run "depth_limit" |
| TestTools.IsDeep | test_tools.py:17-23 | an empty insight, one shorter than 30 after stripping, or one with a shallow phrase is not deep |
| TestTools.IsDeepCharacterised | test_tools.py:17-23 | an insight is deep iff it is non-empty, at least 30 characters after stripping, and free of every shallow phrase |
| TestTools.TruthCheck | test_tools.py:62-63 | a text shorter than the shortest shallow signal (four characters) always passes |
| TestTools.DepthScan | test_tools.py:65-66 | passing needs at least seven characters, the length of the shortest depth keyword |
| TestTools.SignalInsideWord | test_tools.py:62-63 | a shallow phrase is matched inside a longer word: any text containing "adjust" fails the truth check |
| TestTools.MetaHint | test_tools.py:99-105 | the truth hint iff "truth" occurs (any case); the identity hint iff "identity" occurs without "truth"; otherwise the default |
| TestTools.PulseScore | test_tools.py:94-96 | the pulse is in [0, 0.999] and equals (sum of the letters' code points mod 1000)/1000 |
| TestTools.SignalAppend | test_tools.py:95 | the letter signal of a concatenation is the sum of the parts' signals |
| TestTools.PulseIgnoresNonLetters | test_tools.py:94-96 | inserting non-letters anywhere leaves the pulse unchanged |
| TestTools.Reflect | test_tools.py:69-74 | the reflection starts with the mirror prefix, quotes the input verbatim right after it, and ends with ']' |
| TestTools.ReflectShowsHint | test_tools.py:71-72 | right after the quoted input the reflection shows the arrow separator followed by the meta hint chosen from the input's content |
| TestTools.Process | test_tools.py:56-59 | the input is reflected iff it passes both the truth check and the depth scan, otherwise rejected |
| TestTools.MultiDepthReflection | test_tools.py:83-90 | the trace starts with the base, each entry reflects the previous one, and because reflections always grow the loop never stops early: depth + 1 entries |
| TestTools.ChainGrows | test_tools.py:83-90 | in a chain where each entry reflects the previous one, entry i is at least i characters longer than the base |
| TestTools.StoreMemory | test_tools.py:108-111 | storing appends the record and drops the oldest one once the limit of 1000 is exceeded |
| TestTools.StoreMemoryKeepsNewest | test_tools.py:108-111 | after any sequence of stores memory holds exactly the newest 1000 of all records, in order |
| SarethV2.TruthRichRecursion | sareth_v2.py:36-39 | passing needs at least four characters, the length of the shortest keyword ("time") |
| SarethV2.DepthIntegrityScan | sareth_v2.py:41-43 | a text shorter than the shortest shallow flag ("just") always passes |
| SarethV2.IdentityDriftCheck | sareth_v2.py:45-47 | drift needs at least six characters, the length of the shortest ego phrase ("only i") |
| SarethV2.Reflect | sareth_v2.py:49-50 | the reply is exactly the mirror prefix, then the input verbatim, then the fixed suffix: it starts with the mirror emoji, and its length is the sum of the three parts |
| SarethV2.Response | sareth_v2.py:22-31 | the drift warning iff an ego phrase occurs; else the reflection iff the text is truth-rich and passes the depth scan; else the rejection |
| SarethV2.Observe | sareth_v2.py:18-34 | memory gains exactly one record of (timestamp, input, response) and the response is returned |
| SarethV2.MemoryRecordsEveryCall | sareth_v2.py:18-34 | a sequence of observe calls appends one record per call, in order, with each call's response |
| SarethV2.ObserveAllAppends | sareth_v2.py:18-34 | a sequence of observe calls leaves the earlier memory followed by exactly one (timestamp, input, response) record per call |
| SarethV2.ProtocolsIgnoreCase | sareth_v2.py:36-47 | all three protocol checks give the same answer on a text and its lowercase form |
| SarethV2.EgoPhraseForcesWarning | sareth_v2.py:22-25 | any text containing an ego phrase, in any case, gets the drift warning whatever else it contains |
| SarethV2.DetectDrift | sareth_v2.py:56-58 | detection needs at least five characters, the length of "drift" |
| SarethV2.DetectDriftAnyCase | sareth_v2.py:56-58 | the word "drift" in any case anywhere in the text is detected |
| Ledger.Completeness | rve/ledger.py:95 | completeness times max(total, 1) is the filled count, and lies in [0, 1] when 0 <= filled <= total |
| Ledger.Drift | rve/ledger.py:97 | drift lies in [0, 5] |
| Ledger.Confidence | rve/ledger.py:98-101 | confidence lies in [0, 1] |
| Ledger.ScoreClaim | rve/ledger.py:95-101 | completeness is the filled count over max(total, 1), so completeness times a positive total is the filled count; the scores are in range: completeness in [0, 1] for valid counts, independence clamped to [0, 3]: unchanged inside it, 3 above it, 0 below it; drift and confidence are computed from that completeness and the clamped independence, and lie in [0, 5] and [0, 1] |
| Ledger.DriftNonIncreasing | rve/ledger.py:97 | more evidence or more sources never raises the drift |
| Ledger.ConfidenceNonDecreasing | rve/ledger.py:96-101 | more evidence or more sources never lowers the confidence |
| Ledger.ConfidenceMonotone | rve/ledger.py:98-101 | confidence, the clamped product of the evidence term and the drift attenuation, never falls when both factors grow from non-negative values |
| Ledger.ExtremeScores | rve/ledger.py:95-101 | full provenance with three sources gives drift 0 and confidence 1; nothing at all gives drift 3 and confidence 0 |
| Ledger.NextClaimHumanId | rve/ledger.py:82-84 | the id is "CLM-" followed by digits that read back as count + 1, exactly four of them when count + 1 has at most four digits and otherwise as many as count + 1 has |
| Ledger.NextClaimHumanIdInjective | rve/ledger.py:82-84 | different claim counts never give the same id |
| Ledger.AddClaim | rve/ledger.py:87-116 | a new claim carries the next id and the computed scores, and its drift history is exactly its initial drift |
| Ledger.AppendDrift | rve/ledger.py:119-123 | the drift score becomes the value, the history gains exactly that value, and nothing else changes |
| Ledger.HistoryOfUpdates | rve/ledger.py:114-123 | after any updates the history is the creation drift followed by the values in order, and the score is the latest value |
| VerificationPage.Trunc | pages/Reality_Verification_Engine.py:102 | `int()` truncates toward zero |
| VerificationPage.CheckLine | pages/Reality_Verification_Engine.py:106-112 | check i shows a pass mark iff completeness reaches its threshold (0.17, 0.34, 0.50, 0.67, 0.84) |
| VerificationPage.ExplainInterpretation | pages/Reality_Verification_Engine.py:93-113 | six explanation lines and five check lines; check i passes iff completeness reaches threshold i; the sources line shows the independence score out of 3 |
| VerificationPage.PassingChecksFormPrefix | pages/Reality_Verification_Engine.py:106-112 | the passing checks are always a prefix of the list |
| VerificationPage.AllOrNone | pages/Reality_Verification_Engine.py:106-112 | completeness 0.84 or more passes every check; below 0.17 passes none |
| VerificationPage.FormPassCounts | pages/Reality_Verification_Engine.py:126-135 | with k of the form's six boxes ticked, the number of passing checks is 0, 0, 1, 3, 3, 4, 5 for k = 0..6 |
| CodexChecks.TailStart | codex/checks.py:31 | `xs[-n:]` keeps the last n elements, all of them when n exceeds the length, and all of them when n is 0 |
| CodexChecks.ScanFromEndFinds | codex/checks.py:34-41 | the backwards scan finds an alarm iff some line records a passing friction alarm |
| CodexChecks.FrictionAlarmPassed | codex/checks.py:25-33 | a missing or unreadable (OSError) memory file gives False; a file that is not UTF-8 raises UnicodeDecodeError, which `except OSError` does not catch; a readable file always gives an answer |
| CodexChecks.FrictionAlarmWindow | codex/checks.py:25-41 | the check passes iff some line inside the last-n window records a passing friction alarm |
| CodexChecks.ZeroWindowScansAll | codex/checks.py:31 | with last_n = 0 the window is the whole file: an alarm anywhere passes |
| CodexChecks.OlderAlarmIgnored | codex/checks.py:31-41 | a passing alarm just outside the window is not seen |
| CodexChecks.FrictionAlarmTestCases | tests/test_codex_checks.py:15-24 | nine other events then a passing alarm pass; ten other events do not |
| CodexChecks.CommitSigned | codex/checks.py:44-56 | a failing git command means unsigned |
| CodexChecks.CommitSignedUnpadded | codex/checks.py:50-56 | an unpadded status is signed iff it is "G" or "R" |
| CodexChecks.CommitSignedTestCases | tests/test_codex_checks.py:27-34 | "G" and "R" are signed, "N" is not |
| CodexChecks.CommitSignedTrailingNewline | codex/checks.py:51-53 | the newline git prints after the status letter does not matter |
| CodexChecks.LoadRules | codex/checks.py:13-22 | a missing file or one that is not valid JSON gives {}; any decoded value is returned as is, even one that is not an object; any other failure to open or decode the file escapes |
| CodexChecks.VerifyCompliance | codex/checks.py:59-71 | an exception from loading the rules escapes; rules that are not an object raise AttributeError at the first `.get`; an exception from the friction check escapes when its rule is on; otherwise compliance holds iff every enabled rule's check passes; the friction check is consulted iff its rule is on, the signature check only if its rule is on |
| CodexChecks.NonObjectRulesRaise | codex/checks.py:59-71 | rules that decode to an array, a string or another non-object raise AttributeError, whatever the checks would say |
| CodexChecks.NoRulesNoChecks | codex/checks.py:59-71 | with no rules file nothing is checked and compliance holds |
| CodexChecks.VerifyComplianceTestCase | tests/test_codex_checks.py:37-45 | both rules on, a memory file with one passing alarm, and a good signature comply |
| CodexChecks.VerifyComplianceTestAsWritten | tests/test_codex_checks.py:43-45 | when the default memory path is missing, the patched test's compliance call fails |
| AutoTruthScan.ReversedStatement | auto_truth_scan.py:7 | the reversed statement's words are the statement's words in reverse order, on one line |
| AutoTruthScan.MirrorTest | auto_truth_scan.py:6-8 | the report starts with the original label and the statement verbatim, then a newline and the reversed label, and continues beyond them |
| AutoTruthScan.MirrorKeepsWords | auto_truth_scan.py:7 | reversal keeps every word: same count, and reversing back gives the original words |
| AutoTruthScan.MirrorTwice | auto_truth_scan.py:7 | reversing twice gives the statement with its whitespace normalised to single spaces |
| AutoTruthScan.MirrorTestLines | auto_truth_scan.py:6-8 | a one-line statement gives exactly three report lines: original, reversed, footer |
| AutoTruthScan.InversionTest | auto_truth_scan.py:11-12 | the report is the fixed question and footer lines, whatever the statement |
| AutoTruthScan.FractalTest | auto_truth_scan.py:15-16 | the report starts with the micro label and the micro example verbatim, and continues beyond them |
| AutoTruthScan.FractalTestLines | auto_truth_scan.py:15-16 | one-line examples give exactly three report lines: micro, macro, footer |
| RveGlyphs.FiredFrom | rve/glyphs.py:15-22 | the firing detectors are listed once each, in detector order, and a detector is listed iff one of its keywords occurs |
| RveGlyphs.MapTextToGlyphEvents | rve/glyphs.py:5-24 | one event per firing detector, in detector order, each with the detector's glyph and signal and the clock reading |
| RveGlyphs.EventsShape | rve/glyphs.py:10-24 | at most four events, all stamped with the same time, each a detector event, in strictly increasing detector order |
| RveGlyphs.EventPresentIffKeyword | rve/glyphs.py:12-22 | a detector's event is present iff one of its keywords occurs in the lowercased text |
| RveGlyphs.GlyphsDistinct | rve/glyphs.py:19-20 | no glyph appears twice, even when both "seren" and "sara" occur |
| RveGlyphs.NoKeywordsNoEvents | rve/glyphs.py:10-24 | a text with no keyword gives no events |
| RveGlyphs.SaraByTheRiver | rve/glyphs.py:12-22 | "Sara by the River" gives exactly the SEREN and NAEDA events |
| SarethChat.BuildMessages | sareth_chat.py:72-81 | one system message followed by the history unchanged; its text is the core prompt, plus a blank line and the preamble when one is given |
| SarethChat.SystemMessageDeterminesPreamble | sareth_chat.py:78 | the system message determines whether a preamble was given and which one |
| SarethChat.EmptyPreambleAddsSeparator | sareth_chat.py:78 | an empty preamble is not None: it still appends the blank-line separator |
| SarethChat.CraftRefMove | sareth_chat.py:123-142 | labelled output starts with the now-map label and reading; prose output starts with the reading on its own line |
| SarethChat.LabelledLayout | sareth_chat.py:133-138 | with one-line inputs the labelled block has 4 + the number of truths lines: now-map, heading, one bullet per truth, anchor, move |
| SarethChat.ProseLayout | sareth_chat.py:140-142 | with one-line inputs and some truths the prose block's lines are the reading, one bullet per truth, the anchor and the move |
| SarethChat.ProseLayoutNoTruths | sareth_chat.py:140-142 | with no truths the prose block has an empty second line |
| RveConfig.PosixJoin | rve/config.py:10 | the joined path starts with the directory, ends with the file name, and has a slash before the file name when the directory is non-empty; exactly one slash is added, and none when the directory is empty or already ends in '/' |
| RveConfig.GetEnv | rve/config.py:5-8 | a set variable gives its value, even an empty one; an unset one gives the default |
| RveConfig.GetDbUrl | rve/config.py:4-10 | a non-empty DATABASE_URL wins; otherwise an empty data directory raises, an uncreatable one raises, and otherwise the URL is "sqlite:///" followed by the joined ledger path |
| RveConfig.FallbackUrlInjective | rve/config.py:8-10 | different data directories (not ending in '/') give different fallback URLs |
| RveConfig.DefaultDbUrl | rve/config.py:8-10 | with nothing set the URL is sqlite:///./rve_ledger.db |
| RveConfig.EmptyDataDirRaises | rve/config.py:8-9 | RVE_DATA_DIR set to "" is not defaulted and raises |
| RveConfig.BoolText | rve/config.py:14 | `str(default)` of a boolean lowercases into the accepted values iff it is True |
| RveConfig.EnvBool | rve/config.py:13-15 | a set variable is true iff its lowercase value is one of 1, true, yes, on; an unset one gives the default |
| RveConfig.EnvBoolIgnoresCase | rve/config.py:14-15 | a value and its lowercase form give the same answer |
| RveConfig.EnvBoolSamples | rve/config.py:13-15 | "TRUE", "Yes" and "ON" are true; "0", "no" and a set-but-empty value are false whatever the default |
| Onboarding.HandleNext | frontend/src/components/OnboardingPrompts.js:14-22 | before the last question the answer is recorded and the step advances; on the last one the state stays and onComplete receives all answers |
| Onboarding.HandleNextKeepsValid | frontend/src/components/OnboardingPrompts.js:11-22 | the step always equals the number of recorded answers and indexes a question |
| Onboarding.CompletesOnLastStep | frontend/src/components/OnboardingPrompts.js:14-22 | onComplete is called iff the last question is answered, with one answer per question |
| Onboarding.AnswersOnlyGrow | frontend/src/components/OnboardingPrompts.js:15-20 | earlier answers are never changed |
| Onboarding.FeedBeforeLast | frontend/src/components/OnboardingPrompts.js:14-19 | answers before the last question advance the step and are recorded in order, without completing |
| Onboarding.FeedAfterLast | frontend/src/components/OnboardingPrompts.js:19-21 | on the last question every further answer calls onComplete again and the state stays put |
| Onboarding.FeedConcat | frontend/src/components/OnboardingPrompts.js:14-22 | answering two batches is answering their concatenation |
| Onboarding.ThreeAnswersComplete | frontend/src/components/OnboardingPrompts.js:3-22 | with the three shipped questions, three answers complete the flow with exactly those answers |
| InfoSidebar.Toggle | frontend/src/components/InfoSidebar.js:41-43 | toggling the open section closes it; toggling any other id opens that one alone |
| InfoSidebar.RenderSection | frontend/src/components/InfoSidebar.js:48-60 | a section is expanded, labelled "Hide" and shows its content iff it is the active one |
| InfoSidebar.AtMostOneOpen | frontend/src/components/InfoSidebar.js:53-60 | with distinct ids at most one section shows its content |
| InfoSidebar.ToggleRender | frontend/src/components/InfoSidebar.js:41-60 | after toggling a closed section exactly that section is shown; toggling the open one shows none |
| InfoSidebar.ToggleTwice | frontend/src/components/InfoSidebar.js:41-43 | from a closed accordion or with the same section open, two toggles restore the state |
| InfoSidebar.ToggleTwiceFromOther | frontend/src/components/InfoSidebar.js:41-43 | with another section open, two toggles of an id close everything |
| InfoSidebar.ClickSequence | frontend/src/components/InfoSidebar.js:41-43 | opening the guidelines, then the history, then the history again ends closed |
| InfoSidebar.ShippedIdsDistinct | frontend/src/components/InfoSidebar.js:4-37 | the shipped sections have distinct ids |

## Left out

- NumPy branches of `calculate_tension` and `has_converged`: the model follows the pure-Python fallback. The two branches differ in two ways:
  - Division by zero. NumPy gives `inf` or `nan` for a zero divisor (evaluator.py:20) instead of raising. So the `Failure` of `Evaluator.TensionExceeds` and the `Raised` exit of `Recursor.Run` exist only without NumPy.
  - Unequal lengths. NumPy subtracts arrays (evaluator.py:33). It broadcasts a length-1 state and raises `ValueError` for other unequal lengths. The fallback truncates to the shorter state with `zip` (evaluator.py:35). `Evaluator.HasConvergedSymmetric` relies on that truncation. The Recursor only compares a state with its successor, which has the same length.
- Floating-point arithmetic in general: states, scores and thresholds are exact reals.
- Evaluator.TensionExceeds: does not compute the tension value, because the square root has no exact real counterpart here. It decides `tension > threshold` exactly, and `Evaluator.TensionDecision` ties that decision to any real t with t·(mean + 1e-9) = sqrt(variance).
- Console output: the `print` calls in the recursor, logger, glyph engine (`print_trace`) and scripts.
- Glyphs.Generate: SHA-256 and `json.dumps(sort_keys=True)` are parameters. The model requires only that the hash yields 64 lowercase hex characters.
- `generate_glyph_from_text`, `feedback_loop` and `observe` of `test_tools.Sareth`: they combine hashing, the clock and I/O around the modelled `process`, `multi_depth_reflection` and `_store_memory`.
- `export_memory`, `export_memory_to_file` and `load_memory_from_file`: JSON serialisation and file I/O.
- `run_sareth_test`: only formats a hash.
- TestTools.TruthCheck: the contract states only the length bound. Which texts pass is the body itself, a case-insensitive search for the shallow signals, and `TestTools.SignalInsideWord` and `TestTools.IsDeepCharacterised` state its consequences.
- TestTools.DepthScan: the contract states only the length bound; which texts pass is the body's case-insensitive keyword search, used by `TestTools.Process`.
- SarethV2.TruthRichRecursion: the contract states only the length bound; `SarethV2.Response` and `SarethV2.ProtocolsIgnoreCase` state how the keyword search is used.
- SarethV2.DepthIntegrityScan: the contract states only the length bound; `SarethV2.Response` and `SarethV2.ProtocolsIgnoreCase` state how the flag search is used.
- SarethV2.IdentityDriftCheck: the contract states only the length bound; `SarethV2.EgoPhraseForcesWarning` states that any ego phrase, in any case, is found.
- SarethV2.DetectDrift: the contract states only the length bound; `SarethV2.DetectDriftAnyCase` states that "drift" in any case, anywhere, is found.
- TestTools.Reflect: the `:.2f` pulse formatting is a formatter parameter. The function's own contract gives the shape of the reflection; the meta hint after the quoted input is stated by `TestTools.ReflectShowsHint`.
- VerificationPage.ExplainInterpretation: the `:.2f` drift formatting is a formatter parameter. The percentage lines use exact truncation (`Trunc`).
- `drift_test`: `difflib.SequenceMatcher` is not modelled.
- `anchor_echo_test` and `run_truth_scan`: they print list representations.
- `trigger_drift_protocol` and the interactive `__main__` loops: console I/O.
- `SarethV2.export_memory`: JSON serialisation.
- `generate_reply` and `_make_client`: calls to the OpenAI API.
- `first_turn_greeting`: returns a constant.
- `ModelConfig` defaults: not used by the modelled functions.
- The SQLAlchemy tables, sessions, engine creation and timestamps of `rve/ledger.py`: a claim is a record. Its id is computed from the number of claims already stored, which is a parameter.
- The Streamlit widgets, drift chart and claim listing of the verification page.
- The question texts and the heading render of the onboarding component: only the number of questions matters to `handleNext`.
- The JSX section content of the sidebar: opaque markup.
- `sareth.py`: context only, and not valid Python as shipped.
- The `subprocess` call of `commit_signed` and the file reads of `friction_alarm_passed` and `load_rules`: their results are inputs.
- CodexChecks.CommitSigned: a failed command is `None`. An `OSError` other than `FileNotFoundError` (a `PermissionError` running `git`, say) escapes codex/checks.py:54 and is not modelled.
- CodexChecks memory lines that decode to JSON values other than objects: they have no representation. `entry.get` on such a value would raise `AttributeError`.
- RveConfig.EnvBool: the default is a boolean. Other default types reach `str(default)` with arbitrary text and are not modelled.
- RveConfig.GetDbUrl: whether `os.makedirs` succeeds on a non-empty path is the parameter `dirOk`. `exist_ok=True` is covered by `dirOk` being true for existing directories.
- The system prompt text `SYSTEM_CORE`: it is the parameter `core` of `SarethChat.BuildMessages`, and no property depends on its wording.
- Unicode case mapping, whitespace and letter classes: `lower`, `strip`, `split` and `isalpha` are modelled on ASCII.

## Findings

| source | as written | input that shows it | evidently intended | confidence | as-written member | corrected member |
|---|---|---|---|---|---|---|
| ref_engine.py:9 | `run_recursive_engine` reads `engine.glyph_engine`, which a `Recursor` never has | `run_recursive_engine(10, 0.7)`: the run returns, then the attribute read raises `AttributeError` | one glyph generated per logged iteration and read back from that trace | high (not executed) | RefEngine.AsWrittenAlwaysAttributeError | RefEngine.WiredLabels |
| tests/test_codex_checks.py:44 | the test patches `codex.checks.MEMORY_PATH`, but `friction_alarm_passed` bound its default path at codex/checks.py:25 when it was defined | a checkout without data/memory.jsonl: `verify_compliance()` reads the missing default file and returns False | the compliance call reads the temporary memory file holding one passing alarm | medium (not executed) | CodexChecks.VerifyComplianceTestAsWritten | CodexChecks.VerifyComplianceTestCase |
