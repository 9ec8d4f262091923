# AutoControlPC core, modelled in Dafny

AutoControlPC drives a desktop: it moves the mouse, types, reads text off the
screen and exchanges events with a peer machine. This project models the
logic at its centre and proves properties of it. One Dafny module covers each
source file:

- `NetworkEvents` (network_event.dfy) covers the event enum. It has the
  case-insensitive `from_string` with its `CUSTOM` fallback, `to_string`, and
  the `EVENTS` table.
- `Keyboard` (keyboard_controller.dfy) covers key-name resolution (`_get_key`
  over `SPECIAL_KEYS`). The input device becomes the trace of press, release
  and type events it receives.
- `OcrTool` (ocr_tool.dfy) covers the Levenshtein distance, the
  containment-or-fuzzy match and the choice of the most confident candidate.
- `RainbowOcr` (rainbow_ocr.dfy) covers the three matching strategies and
  the choice of the best candidate by (score, confidence).
- `IconDetector` (icon_detector.dfy) covers intersection-over-union,
  non-maximum suppression and the final sort-and-truncate of `find_icons`.
- `AdvancedFeatures` (advanced_features.dfy) covers the action recorder, the
  replaying player (as the trace of controller calls and pauses it issues),
  and the script builder with its `execute` and `save_as_code`.
- `P2P` (p2p_network.dfy) covers the peer message engine as a sequential
  state machine:
  - the message queue, the client and server sockets (present or absent) and
    the `running` flag;
  - the handler that queues decoded payloads;
  - the bounded connect-retry loop;
  - the send policy: connect if needed, resend once after a failed write;
  - the filtered, polling `receive`;
  - `stop`.

`Text` (text.dfy) holds the Python string operations these need:
- `lower`/`upper`;
- `strip`;
- `in` on strings;
- `split`.

`Wrappers` (wrappers.dfy) holds `Option` and `Result`.

Everything outside the program's own logic becomes an argument. This covers:
- the OCR engine's output;
- template-match hits;
- the clock readings;
- whether each connection attempt or write succeeds;
- which controller call raises;
- the rendering of floats.

## Model

| member | source | states |
|---|---|---|
| NetworkEvents.ToString | network_event.py:44-46 | a member's value, the lower-case snake-case string sent on the wire; its partners are NameIsUpperValue and RoundTrip |
| NetworkEvents.ByName | network_event.py:8-34 | finds the member whose name is exactly the argument; None exactly when no member has that name |
| NetworkEvents.FromString | network_event.py:37-42 | a result other than CUSTOM is the member named by the upper-cased string; a string whose upper-case form names no member gives CUSTOM |
| NetworkEvents.NameIsUpperValue | network_event.py:12-34 | every member's name is its value in upper case |
| NetworkEvents.CallNamesAreUpperValues | network_event.py:17-21 | the call events' names are their values in upper case |
| NetworkEvents.MediaNamesAreUpperValues | network_event.py:24-27 | the audio/video events' names are their values in upper case |
| NetworkEvents.OtherNamesAreUpperValues | network_event.py:12-34 | the system, message, data and custom events' names are their values in upper case |
| NetworkEvents.RoundTrip | network_event.py:37-46 | `from_string(e.to_string()) == e` for every member, CUSTOM included |
| NetworkEvents.CaseInsensitive | network_event.py:40 | strings that agree up to case give the same member |
| NetworkEvents.EventsKeyedByValue | network_event.py:50-65 | each EVENTS key is the value of the member it maps to, and `from_string` of the key gives that member |
| NetworkEvents.EventsCoverAllButCustom | network_event.py:50-65 | EVENTS reaches every member except CUSTOM, each under its own value |
| Keyboard.GetKey | keyboard_controller.py:134-150 | error exactly when the name is not one character and its lower-case form is no special-key name; a special key is the table entry of the lower-cased name; a character result is the name itself, case kept |
| Keyboard.SpecialKeys | keyboard_controller.py:17-57 | the lower-case names of the special keys, aliases included; every name it knows has at least two characters, so it never shadows a one-character key |
| Keyboard.SingleCharPassesThrough | keyboard_controller.py:143-148 | a one-character name resolves to that character |
| Keyboard.SpecialNamesIgnoreCase | keyboard_controller.py:143-146 | names that agree up to case resolve to the same special key |
| Keyboard.AliasAgrees | keyboard_controller.py:17-57 | two table names for the same key resolve identically |
| Keyboard.AliasesAgree | keyboard_controller.py:17-57 | enter/return, esc/escape, ctrl/control and win/cmd resolve to the same key |
| Keyboard.ResolveAllSpec | keyboard_controller.py:114 | resolving a list succeeds iff every name resolves, then gives each name's key in order; a failure carries the error of the first name that does not resolve, every earlier name resolving |
| Keyboard.TypedTypeEvents | keyboard_controller.py:60-70 | the characters typed are exactly the text |
| Keyboard.TapEventsShape | keyboard_controller.py:90-102 | tapping `count` times gives 2·count events alternating press and release, none when count ≤ 0 |
| Keyboard.TapEventsAppend | keyboard_controller.py:98-100 | one more tap appends a press and a release |
| Keyboard.CombinationIsNested | keyboard_controller.py:104-121 | pressing all keys in order then releasing them in reverse is the properly nested press/release sequence |
| Keyboard.KeyboardController.constructor | keyboard_controller.py:13-14 | a new controller has sent no events |
| Keyboard.KeyboardController.TypeText | keyboard_controller.py:60-70 | the device receives one type event per character, in order |
| Keyboard.KeyboardController.PressKey | keyboard_controller.py:72-79 | succeeds iff the name resolves, then presses that key; on error nothing is sent |
| Keyboard.KeyboardController.ReleaseKey | keyboard_controller.py:81-88 | succeeds iff the name resolves, then releases that key; on error nothing is sent |
| Keyboard.KeyboardController.TapKey | keyboard_controller.py:90-102 | fails iff count > 0 and the name does not resolve; otherwise sends count press/release pairs |
| Keyboard.KeyboardController.HoldKey | keyboard_controller.py:123-132 | one press then one release of the resolved key, or an error and nothing sent |
| Keyboard.KeyboardController.KeyCombination | keyboard_controller.py:104-121 | succeeds iff all names resolve (nothing is pressed otherwise); presses in order, releases in reverse |
| Keyboard.KeyboardController.PressAll | keyboard_controller.py:116-117 | presses the keys in order |
| Keyboard.KeyboardController.ReleaseAllReversed | keyboard_controller.py:120-121 | releases the keys in reverse order |
| OcrTool.Levenshtein | ocr_tool.py:34-49 | the two-row loop returns the edit distance (recursive definition `Dist`), the argument swap and the empty-string shortcut included |
| OcrTool.NextRow | ocr_tool.py:41-48 | one pass of the outer loop turns row i of the distance table into row i+1 |
| OcrTool.PrefixDistSymmetric | ocr_tool.py:36-37 | the distance between prefixes does not depend on the argument order |
| OcrTool.DistSymmetric | ocr_tool.py:36-37 | the distance is symmetric, so swapping the longer string first changes nothing |
| OcrTool.PrefixDistZeroIffEqual | ocr_tool.py:34-49 | prefix distance is 0 iff the prefixes are equal |
| OcrTool.DistZeroIffEqual | ocr_tool.py:34-49 | distance 0 iff the strings are equal |
| OcrTool.PrefixDistUpper | ocr_tool.py:34-49 | prefix distance is at most the longer prefix length |
| OcrTool.PrefixDistLower | ocr_tool.py:34-49 | prefix distance is at least the length difference |
| OcrTool.DistBounds | ocr_tool.py:38-39 | length difference ≤ distance ≤ longer length; distance to the empty string is the length |
| OcrTool.BlankTextMatches | ocr_tool.py:52-57 | a text that strips to empty matches every target |
| OcrTool.StrictMatchIsContainment | ocr_tool.py:56 | without fuzzy matching, a match is containment of the lower-cased stripped text in the lower-cased target or the reverse |
| OcrTool.IsMatch | ocr_tool.py:52-60 | computes the match predicate, calling the Levenshtein loop only when containment fails and fuzzy is on |
| OcrTool.FirstBest | ocr_tool.py:69 | the chosen index has maximal confidence and comes before every other maximal one |
| OcrTool.CollectMatches | ocr_tool.py:51-66 | the candidates are the matching results, in order |
| OcrTool.FindTextPosition | ocr_tool.py:30-71 | None iff no result matches; otherwise the centre of the first most confident candidate |
| OcrTool.ChosenIsMostConfident | ocr_tool.py:67-70 | the chosen result is one of the results, matches, and no matching result is more confident |
| RainbowOcr.ExactMatch | run_rainbow_ocr.py:66-71 | strategy 1, case-sensitive containment of the stripped text in the target or the reverse; a text that strips to the target always passes |
| RainbowOcr.LooseMatch | run_rainbow_ocr.py:61-80 | strategy 2, the same containment after lower-casing both sides; it accepts every text strategy 1 accepts |
| RainbowOcr.AllWordsMatch | run_rainbow_ocr.py:62-95 | strategy 3: every lower-cased word of the target occurs in the lower-cased stripped text |
| RainbowOcr.Score | run_rainbow_ocr.py:79-106 | no score iff strategies 2 and 3 both fail; a text strategy 1 accepts would score 1.0 |
| RainbowOcr.FirstWhere | run_rainbow_ocr.py:66-77 | the first result satisfying the predicate, none before it |
| RainbowOcr.Collect | run_rainbow_ocr.py:66-106 | the candidates are exactly the scored results, with their scores |
| RainbowOcr.FirstBest | run_rainbow_ocr.py:110 | the chosen candidate is maximal by (score, confidence) and the first among equals |
| RainbowOcr.Scan | run_rainbow_ocr.py:66-106 | finds the first exact match and, when there is none, collects the scored candidates |
| RainbowOcr.FindTextPosition | run_rainbow_ocr.py:41-119 | None when the engine fails; otherwise the first exact match, or else the best candidate, or None |
| RainbowOcr.ExactMatchWins | run_rainbow_ocr.py:70-77 | the first case-sensitive containment returns at once, whatever follows |
| RainbowOcr.EmptyTargetTakesFirst | run_rainbow_ocr.py:71 | an empty target is found at the first text area |
| RainbowOcr.NoneIffNothingMatches | run_rainbow_ocr.py:109-115 | None iff no text area passes any of the three strategies |
| RainbowOcr.CollectBest | run_rainbow_ocr.py:109-112 | the best candidate comes from the results and nothing beats it |
| RainbowOcr.ChosenIsBest | run_rainbow_ocr.py:109-112 | without an exact match, the position is that of a candidate no other scored result beats |
| RainbowOcr.CollectTop | run_rainbow_ocr.py:109-112 | when some result reaches the top score, the chosen candidate has it |
| RainbowOcr.ScoreAtMostFull | run_rainbow_ocr.py:80-106 | scores never exceed 1.0, and a case-insensitive containment scores exactly 1.0 |
| RainbowOcr.FullScoreWins | run_rainbow_ocr.py:109-112 | if any text area matches case-insensitively, the chosen candidate has score 1.0 |
| RainbowOcr.WordsOnlyWhenLooseFails | run_rainbow_ocr.py:94-106 | score 0.8 iff case-insensitive containment fails and every target word occurs |
| IconDetector.Iou | icon_detector.py:69-79 | `_iou`: overlap over union plus 1e-6; boxes that do not overlap have IoU 0 |
| IconDetector.InterArea | icon_detector.py:71-75 | the overlap area is never negative and is zero for boxes that do not overlap |
| IconDetector.IouSymmetric | icon_detector.py:69-79 | overlap and IoU do not depend on the argument order |
| IconDetector.IouInUnitInterval | icon_detector.py:69-79 | for well-formed boxes the overlap is at most either area and 0 ≤ IoU < 1 |
| IconDetector.CenterRoundTrip | icon_detector.py:56-65 | the centre computed from a match's box is the match itself, and the box is well formed |
| IconDetector.ToBoxes | icon_detector.py:56 | one box per match |
| IconDetector.Centers | icon_detector.py:61-65 | one kept match per kept box |
| IconDetector.CollectMatches | icon_detector.py:37-41 | one match per hit, centred half a template away from the hit |
| IconDetector.MatchBoxAtHit | icon_detector.py:37-41 | the suppression box of a hit's match starts at the hit and keeps its score |
| IconDetector.Insert | icon_detector.py:57 | insertion adds exactly one element |
| IconDetector.SortDesc | icon_detector.py:57 | sorting keeps the length and the elements |
| IconDetector.InsertPermutes | icon_detector.py:57 | insertion adds exactly the element, as a multiset |
| IconDetector.InsertSorted | icon_detector.py:57 | insertion into a descending list keeps it descending |
| IconDetector.SortDescSpec | icon_detector.py:57 | sorting by descending score is a permutation and is descending |
| IconDetector.SortDescOfSorted | icon_detector.py:51 | an already descending list is left as it is, so the stable sort keeps the order |
| IconDetector.Filter | icon_detector.py:66 | the comprehension keeps exactly the elements passing the test |
| IconDetector.FilterSorted | icon_detector.py:66 | filtering keeps the descending order |
| IconDetector.Nms | icon_detector.py:54-67 | the pop-append-filter loop computes the greedy suppression of the score-sorted boxes |
| IconDetector.GreedyFromInput | icon_detector.py:59-66 | suppression keeps at most its input, only input boxes |
| IconDetector.GreedySorted | icon_detector.py:59-66 | suppression of a descending list is descending |
| IconDetector.GreedySeparated | icon_detector.py:59-66 | any two kept boxes have IoU below the threshold |
| IconDetector.GreedyCovers | icon_detector.py:59-66 | every input box is kept or overlaps a kept box of at least its score by the threshold |
| IconDetector.WorklistFromMatches | icon_detector.py:56-57 | every sorted box is the box of one of the matches |
| IconDetector.NmsFromInput | icon_detector.py:54-67 | at most as many kept matches as matches, all of them input matches |
| IconDetector.NmsSorted | icon_detector.py:54-67 | kept matches come in descending score order |
| IconDetector.NmsSeparated | icon_detector.py:54-67 | the boxes of any two kept matches have IoU below the threshold |
| IconDetector.CoveredMatch | icon_detector.py:54-67 | a match whose box is covered is covered as a match |
| IconDetector.NmsCovers | icon_detector.py:54-67 | every match is kept or suppressed by a kept match of at least its score |
| IconDetector.Take | icon_detector.py:51 | `[:n]` keeps a prefix of length min(n, len) for n ≥ 0 and drops the last -n elements for n < 0 |
| IconDetector.FindIcons | icon_detector.py:36-52 | collects the matches, suppresses with threshold 0.3, sorts by descending score and truncates |
| IconDetector.FindIconsBounds | icon_detector.py:50-51 | at most max_results icons (for max_results ≥ 0) and at most one per hit, a prefix of the suppression result, in descending score order |
| AdvancedFeatures.ActionRecorder.constructor | advanced_features.py:15-18 | a new recorder is idle, with no actions and no start time |
| AdvancedFeatures.ActionRecorder.StartRecording | advanced_features.py:20-25 | clears the actions, stores the start time and starts recording |
| AdvancedFeatures.ActionRecorder.StopRecording | advanced_features.py:27-31 | stops recording and returns the recorded actions unchanged |
| AdvancedFeatures.ActionRecorder.Record | advanced_features.py:33-80 | while recording, appends the action stamped with the time since the start; otherwise nothing changes |
| AdvancedFeatures.ActionRecorder.RecordMouseMove | advanced_features.py:33-42 | while recording, appends a mouse move with its duration; otherwise nothing changes |
| AdvancedFeatures.ActionRecorder.RecordMouseClick | advanced_features.py:44-53 | while recording, appends a click with button and optional position; otherwise nothing changes |
| AdvancedFeatures.ActionRecorder.RecordKeyPress | advanced_features.py:55-62 | while recording, appends a key press; otherwise nothing changes |
| AdvancedFeatures.ActionRecorder.RecordTextInput | advanced_features.py:64-71 | while recording, appends a text input; otherwise nothing changes |
| AdvancedFeatures.ActionRecorder.RecordWait | advanced_features.py:73-80 | while recording, appends a wait; otherwise nothing changes |
| AdvancedFeatures.RecordedTagsKnown | advanced_features.py:33-80 | every recorded action carries one of the five type tags the player dispatches on |
| AdvancedFeatures.Dispatch | advanced_features.py:135-154 | a known action issues exactly one controller call and an unknown one none; dispatch never pauses |
| AdvancedFeatures.PassFrom | advanced_features.py:128-156 | one pass is the first action's pause and call followed by the pass over the rest, timed from that action |
| AdvancedFeatures.ActionPlayer.constructor | advanced_features.py:104-105 | a new player has no actions |
| AdvancedFeatures.ActionPlayer.LoadActions | advanced_features.py:107-109 | replaces the actions |
| AdvancedFeatures.ActionPlayer.Play | advanced_features.py:117-158 | replays `loop` passes; nothing for loop ≤ 0 or no actions; speed 0 fails |
| AdvancedFeatures.ActionPlayer.ReplayOnce | advanced_features.py:127-156 | the inner loop issues one pass, timing restarting from 0 |
| AdvancedFeatures.Calls | advanced_features.py:135-154 | the controller calls of a trace are trace effects other than pauses |
| AdvancedFeatures.CallsAppend | advanced_features.py:124-156 | the calls of a concatenation are the concatenated calls |
| AdvancedFeatures.CallsOfDispatch | advanced_features.py:135-154 | a dispatch consists of calls only |
| AdvancedFeatures.ActionCalls | advanced_features.py:130-154 | an action's calls are its dispatch, whatever its pause |
| AdvancedFeatures.PassCalls | advanced_features.py:128-156 | the calls of a pass are the actions' dispatches in order, one per known action |
| AdvancedFeatures.RepeatCalls | advanced_features.py:124 | the calls of repeated passes are the repeated calls |
| AdvancedFeatures.PlayCalls | advanced_features.py:117-158 | with nonzero speed play succeeds, issuing the dispatches of all actions, in order, `loop` times |
| AdvancedFeatures.PlayFailsOnlyOnZeroSpeed | advanced_features.py:124-130 | play fails iff speed is 0, loop > 0 and there are actions |
| AdvancedFeatures.SleptAppend | advanced_features.py:131-132 | pause time adds up over concatenation |
| AdvancedFeatures.SleptNoPause | advanced_features.py:135-154 | controller calls add no pause time |
| AdvancedFeatures.PassPausesSpan | advanced_features.py:127-156 | for chronological timestamps and positive speed, one pass pauses for the recording's span divided by the speed |
| AdvancedFeatures.ActionSlept | advanced_features.py:130-132 | an action pauses for its time gap divided by the speed when the gap is non-negative |
| AdvancedFeatures.ScriptBuilder.constructor | advanced_features.py:208-209 | a new builder has no steps |
| AdvancedFeatures.ScriptBuilder.MoveMouse | advanced_features.py:211-214 | appends a move step and returns the builder |
| AdvancedFeatures.ScriptBuilder.Click | advanced_features.py:216-219 | appends a click step and returns the builder |
| AdvancedFeatures.ScriptBuilder.TypeText | advanced_features.py:221-224 | appends a typing step and returns the builder |
| AdvancedFeatures.ScriptBuilder.PressKey | advanced_features.py:226-229 | appends a key step and returns the builder |
| AdvancedFeatures.ScriptBuilder.KeyCombo | advanced_features.py:231-234 | appends a key-combination step and returns the builder |
| AdvancedFeatures.ScriptBuilder.Wait | advanced_features.py:236-239 | appends a wait step and returns the builder |
| AdvancedFeatures.ScriptBuilder.Drag | advanced_features.py:241-244 | appends a drag step and returns the builder |
| AdvancedFeatures.ScriptBuilder.Scroll | advanced_features.py:246-249 | appends a scroll step and returns the builder |
| AdvancedFeatures.ScriptBuilder.Execute | advanced_features.py:251-281 | true iff no step's call raises; otherwise the steps run are a non-empty prefix ending at the first failing step |
| AdvancedFeatures.ScriptBuilder.SaveAsCode | advanced_features.py:283-325 | the script is the header, one line per step in order, the trailer; the text is the lines joined by newlines |
| AdvancedFeatures.ScriptLayout | advanced_features.py:285-322 | the header comes first, the trailer last, and line `header + i` renders step i |
| AdvancedFeatures.Header | advanced_features.py:285-297 | the eleven header lines: the generation time on line 5, the controller import and `def main():` |
| AdvancedFeatures.StepLine | advanced_features.py:299-316 | each step's line is a closed call, in `main`, of the controller function `execute` dispatches that step to |
| AdvancedFeatures.SplitJoin | advanced_features.py:324-325 | splitting the written text at newlines gives back the lines, when no line holds a newline |
| P2P.Envelope | p2p_network.py:175-184 | a message has exactly the keys event, data and timestamp; the event is the member's value or the text; data falls back to `{}` when falsy |
| P2P.TargetOf | p2p_network.py:229-232 | no filter exactly when no event or an empty name is given; otherwise the filter is the name `send` would put in the message |
| P2P.Wanted | p2p_network.py:237 | a message passes when there is no filter or its event equals the filter |
| P2P.SentIsWanted | p2p_network.py:169-173 | a message sent for an event passes the receive filter for that event |
| P2P.EmptyFilterWantsAll | p2p_network.py:226-237 | no filter, or an empty name, lets every message through |
| P2P.FirstMatch | p2p_network.py:234-236 | the index of the first message passing the filter, none before it; None when none passes |
| P2P.ReceivePopsFirstMatch | p2p_network.py:231-246 | a returned message was the first wanted one in the queue as it stood, and it alone was removed; a timeout removes nothing |
| P2P.ReadingsSuffice | p2p_network.py:233 | once a reading reaches the timeout, later readings are never consulted: the loop ends at that reading |
| P2P.ReceiveReturnsWanted | p2p_network.py:234-241 | a returned message passes the filter |
| P2P.ReceiveTimeoutKeepsQueue | p2p_network.py:231-246 | with nothing arriving, a timed-out receive leaves the queue unchanged |
| P2P.ReceiveExpired | p2p_network.py:231 | with timeout ≤ 0 the queue is never scanned: None and the queue unchanged |
| P2P.ReceiveAnyPopsHead | p2p_network.py:226-241 | without a filter the first poll pops the queue head |
| P2P.DecodedIsPayloadsBeforeEnd | p2p_network.py:105-126 | the handler queues the decoded payloads read before the first empty read or undecodable chunk, in order; invalid JSON adds nothing |
| P2P.ConnectBounds | p2p_network.py:128-161 | no host: no attempt, failure. Otherwise at most 5 attempts with a pause between consecutive ones; success iff one of the 5 attempts connects, and then it is the last attempt |
| P2P.AttemptTraceCounts | p2p_network.py:135-161 | n attempts make n connection attempts and n-1 pauses, and write nothing |
| P2P.AttemptsFromFacts | p2p_network.py:135-161 | the loop stops at the first success; it fails only after the fifth attempt |
| P2P.ConnectIsShaped | p2p_network.py:128-161 | a connect makes at most 5 attempts and writes nothing |
| P2P.TransmitBounds | p2p_network.py:194-207 | with the socket present: at most two writes; success iff exactly one write went through, and it is the last effect |
| P2P.AssembleBounds | p2p_network.py:185-213 | the send policy writes at most twice and succeeds iff exactly one write went through |
| P2P.SendBounds | p2p_network.py:163-213 | a send writes at most twice with at most 10 attempts; success iff one write went through, as its last effect; a failed first connect writes nothing; without a host nothing happens |
| P2P.Stopped | p2p_network.py:248-266 | after `stop` the flag is down, both sockets are gone, the queue is kept, and closings are only appended to the trace |
| P2P.StopIdempotent | p2p_network.py:248-266 | stopping leaves the flag down and both sockets gone, the queue kept; stopping twice is stopping once |
| P2P.P2PNetwork.constructor | p2p_network.py:25-33 | a new peer has an empty queue, is not running, and has no sockets |
| P2P.P2PNetwork.HandleClient | p2p_network.py:105-126 | while running, appends the decoded payloads at the tail of the queue; not running, nothing |
| P2P.P2PNetwork.ConnectToPeer | p2p_network.py:128-161 | the retry loop follows its specification: result, attempt count, effects; the socket is present iff the last attempt connected, and untouched without a host |
| P2P.P2PNetwork.Send | p2p_network.py:163-213 | connects if needed, then writes with one reconnect-and-resend, as the send specification says |
| P2P.P2PNetwork.Transmit | p2p_network.py:194-213 | writes; after a failed write drops the socket, reconnects once and writes once more; a failure anywhere gives false |
| P2P.P2PNetwork.Scan | p2p_network.py:234-236 | finds the first message passing the filter |
| P2P.P2PNetwork.Receive | p2p_network.py:215-246 | for clock readings that end at or past the timeout: polls while the elapsed time is below the timeout; pops and returns the first wanted message, or returns None |
| P2P.P2PNetwork.Stop | p2p_network.py:248-266 | clears the flag, closes and drops whichever sockets exist, keeps the queue |

## Left out

- Unicode case mapping: `lower`/`upper` are modelled on ASCII letters only. Python maps every cased Unicode character.
- Screen capture, the OCR engine, OpenCV template matching and `np.where` are left out, as are saving debug crops and reading the template file (with its `FileNotFoundError`). Their outputs are inputs to the model: detections with a text, a confidence and a centre, and template hits with their scores.
- Bounding-box centres (`int(sum(...)/4)`) are float arithmetic and are not modelled. Each detection carries its centre.
- IconDetector.Iou: computed on exact reals, not floats. The `1e-6` term is kept, and float rounding is not modelled.
- IconDetector.FindIcons: the template's width and height and the hits are arguments, because they come from image files and OpenCV.
- Controller calls in `play`, `execute` and `save_as_code` (mouse, keyboard and `wait` in auto_controller.py) are recorded, not performed. auto_controller.py and mouse_controller.py are not part of this model.
- AdvancedFeatures.ActionPlayer.Play: the `ZeroDivisionError` of speed 0 becomes an error result. It is raised at the first action of the first pass, before any effect, exactly where the source raises.
- AdvancedFeatures.ActionPlayer.Play: every controller call is taken to return. In the source an unknown key in a `key_press` action raises `ValueError` inside `tap_key` and, with no `try` in `play`, ends the replay there; the model still issues the later calls.
- AdvancedFeatures.ActionPlayer.Play: actions are typed records. A dictionary missing a key that play reads with `[...]` (a `KeyError` in the source) is not represented.
- The recorder's timestamps and `save_as_code`'s "generated at" line take the clock reading as an argument. Float formatting in the generated code is the argument `fmt`.
- `save_to_file`, `load_from_file` (both classes) and the final file write of `save_as_code` are file I/O and are left out. The model stops at the text that would be written.
- `play_interactive` is left out: it is an interactive console loop over `input()`.
- AdvancedFeatures.StepLine: the generated line quotes strings with `'...'` without escaping, as the source does. A text containing a quote yields a line that is not valid Python; this is not stated as a property.
- Keyboard.KeyboardController.TypeText, Keyboard.KeyboardController.TapKey and Keyboard.KeyboardController.HoldKey: the pauses are not in the event trace. These are `type_text`'s `interval` after each character, `tap_key`'s `interval` between taps when `count > 1`, and `hold_key`'s `duration` between press and release. Their parameters are omitted.
- Default argument values are kept where the defaulted parameters come last in the model's signature (`tap_key`, `play`, the script builder, `find_text_position`, `find_icons`, `_nms`, the peer's constructor). The recorder's `record_mouse_move`/`record_mouse_click` and the peer's `send`/`receive` take the clock reading or the outcomes after those parameters, so there every argument is passed explicitly.
- `_get_local_ip`, `_start_server` and `_receive_loop` are not modelled, nor are sockets, threads, the queue lock or `time.sleep`/`time.time`. `running` is a field that the server start would raise.
- P2P.P2PNetwork.HandleClient: each `recv` result is taken to be one whole message. Stream framing (several messages in one read, or one split across reads) is not modelled. A JSON payload that is not an object is not represented.
- P2P.P2PNetwork.Receive: the clock readings are a finite list that must end at or past the timeout (the source keeps reading the clock until it gets there). The loop never reaches the end of such a list before the deadline, and ReadingsSuffice shows later readings are never consulted. The clock becomes the list of elapsed-time readings at each deadline check, and messages queued by handler threads are batches arriving during the pauses. Receive's 0.1 s pauses are not recorded in `trace`.
- P2P.P2PNetwork.Send: `data` is a JSON value and `str(event)` is modelled for string events only. The serialisation `json.dumps(...).encode()` is left out: the trace records the message itself.
- P2P.P2PNetwork.Send: the `timeout` parameter is unused by the source and is omitted.
- The module-level `get_network`/`init_network`/`stop_network` in p2p_network.py are left out: they only create, start or stop the one global peer. With a peer host, `init_network` calls `P2PNetwork.init`, which does not exist.
- Other files of the repository (audio, window, input-method and test-case utilities, the coordinators and their test harnesses) are not part of this model.
