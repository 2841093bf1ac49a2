# Diarisation and coaching trigger of the chat screen

This project models the logic behind a two-person chat screen. A microphone
stream is split into speakers, and a coaching service is nudged when the
conversation looks strained. It covers five parts, each its own Dafny module:

- **AudioMath** (`audio_math.dfy`) is the vector maths. `cosineSim` is cosine
  similarity over the shorter vector's length, with a zero denominator replaced
  by 1. `meanVectors` is the element-wise mean of a list of vectors. Both are
  loop methods, each proved equal to a recursive specification function.
- **Coach** (`coach.dfy`) holds the lexical heuristics. `negativityScore` and
  `youStatementScore` score a text. `computeFlags` turns the turns of the last
  120 seconds into an ordered list of flags: dominance, negativity and
  you_statements.
- **ChatInput** (`chat_input.dfy`) is the diarisation engine, modelled as the
  class `ChatInputState` with one method per event. It covers:
  - the guided calibration phases `idle → s1_prompt → s1_record → s1_review →
    s2_prompt → s2_record → s2_review → live`;
  - during calibration, frame filtering and storing the mean as a voiceprint;
  - the per-frame live step: adaptive noise-floor voice activity detection,
    the margin rule for the candidate speaker, and a majority vote over the
    last eight candidates;
  - attribution of final transcripts and typed text to the last confirmed
    speaker.

  The live step is specified once, as the function `LiveStep` on a `Tracker`
  value. The frame callback is proved to compute it.
- **App** (`app.dfy`) is the message list and the coach gate, modelled as the
  class `AppState`.
  - `maybeCoach`'s guard chain is the function `CoachDecision`. The guards
    are: coaching enabled, 30 s since the last intervention, a 1 s lull, at
    least two human turns among the last twenty, and at least two flags.
  - `handleSend` and the reply handling are methods. The reply handling moves
    the rate-limit timestamp only on a positive reply.
- **Worklet** (`capture_processor.dfy`) is the audio-thread frame chunker, the
  class `CaptureProcessor`. A fixed-size `array` is filled in place, and a copy
  of it is posted whenever it is full. The class invariant is stream
  preservation: all posted frames, followed by the pending part of the buffer,
  equal every sample fed so far.

`strings.dfy` models the JavaScript string built-ins the core relies on:
ASCII `toLowerCase`, `includes`, and `trim` over the ECMAScript white-space
and line-terminator code points. `labels.dfy` holds the speaker labels and
`wrappers.dfy` an `Option` type. Several inputs come from outside the model
and appear as parameters:

- The clock: `now`, `sentAt`, `decideAt`, `replyAt`.
- `Math.sqrt`: an opaque `sqrt: real -> real`, about which nothing is assumed.
- Feature frames: `Frame` values.
- Whether the microphone could be opened: `micOk`.
- The coaching service's answer: an `Option<CoachReply>`, where `None` is a
  failed request.

On these points the model follows the code as written:

- `stopListening` resets neither the noise floor nor the voiceprints.
- A frame without a candidate is never pushed into the smoothing window.
- Storing a voiceprint does not check its dimension against the other one.
- The "too similar" advisory is evaluated while speaker two's review is shown,
  not on leaving it.

## Model

| member | source | states |
|---|---|---|
| Strings.Lower | frontend/src/utils/coach.js:9 | lowercasing keeps the length |
| Strings.LowerIdempotent | frontend/src/utils/coach.js:9 | lowercasing twice is lowercasing once |
| Strings.LowerOfUpper | frontend/src/utils/coach.js:9 | lowercasing ignores the case the text was typed in |
| Strings.Contains | frontend/src/utils/coach.js:10 | `t.includes(w)`; no ensures of its own: `ContainsIff` states it holds exactly when `w` occurs at some index, `ContainsInfix` and `ContainsNonEmptyInEmpty` its cases |
| Strings.ContainsIff | frontend/src/utils/coach.js:10 | `includes(w)` holds exactly when `w` occurs at some index of the text |
| Strings.ContainsInfix | frontend/src/utils/coach.js:10 | a word inside a longer text is found |
| Strings.ContainsNonEmptyInEmpty | frontend/src/utils/coach.js:9 | the empty text contains no non-empty word |
| Strings.IsSpace | frontend/components/ChatInput.jsx:326 | the characters `trim()` removes (ECMAScript white space and line terminators); its properties are stated through `SpaceEnd`, `SpaceStart`, `TrimStart`, `TrimEnd` and `TrimEmptyIff` |
| Strings.SpaceEnd | frontend/components/ChatInput.jsx:326 | the index reached by skipping white space from `i`: everything skipped is white space and the character there is not |
| Strings.SpaceStart | frontend/components/ChatInput.jsx:326 | the index reached by skipping white space backwards from `j`: everything skipped is white space and the character before it is not |
| Strings.TrimStart | frontend/components/ChatInput.jsx:326 | result is a suffix, the dropped part is all white space, and the result does not start with white space |
| Strings.TrimEnd | frontend/components/ChatInput.jsx:326 | result is a prefix, the dropped part is all white space, and the result does not end with white space |
| Strings.Trim | frontend/components/ChatInput.jsx:326 | result is no longer than the input and neither starts nor ends with white space |
| Strings.TrimEmptyIff | frontend/components/ChatInput.jsx:326-327 | `trim()` is empty exactly when the text is all white space |
| Strings.TrimOfTrimmed | frontend/components/ChatInput.jsx:326 | text without white space at either end is left unchanged |
| AudioMath.MinLength | frontend/src/utils/audioMath.js:3 | the compared length is the smaller of the two lengths |
| AudioMath.Denominator | frontend/src/utils/audioMath.js:10 | the denominator is the product of the roots when that is non-zero and 1 otherwise, so never zero |
| AudioMath.Dot | frontend/src/utils/audioMath.js:5-6 | the `dot` accumulator over the first n entries; no ensures of its own: `DotPrefix`, `DotSymmetric` and `DotZeroLeft` state its properties |
| AudioMath.Cosine | frontend/src/utils/audioMath.js:2-12 | the value `cosineSim` returns; no ensures of its own: `CosineSim` is proved to return it, and `CosineIgnoresTail`, `CosineSymmetric` and `CosineOfZeroPrefix` state its properties |
| AudioMath.CosineSim | frontend/src/utils/audioMath.js:2-12 | the accumulating loop returns the cosine over the common prefix |
| AudioMath.DotPrefix | frontend/src/utils/audioMath.js:5-9 | a dot product reads only the first `n` entries |
| AudioMath.CosineIgnoresTail | frontend/src/utils/audioMath.js:3-9 | appending entries to the longer vector leaves the similarity unchanged, in either argument order |
| AudioMath.DotSymmetric | frontend/src/utils/audioMath.js:6 | the dot product is symmetric |
| AudioMath.CosineSymmetric | frontend/src/utils/audioMath.js:3-11 | `cosineSim(a, b) == cosineSim(b, a)` for any square root |
| AudioMath.CosineOfZeroPrefix | frontend/src/utils/audioMath.js:10-11 | an all-zero compared prefix on either side gives 0 |
| AudioMath.Mean | frontend/src/utils/audioMath.js:16-17 | the mean has as many coordinates as the first vector |
| AudioMath.MeanVectors | frontend/src/utils/audioMath.js:14-21 | the zero-fill, add-in-place and divide loops compute the column means |
| AudioMath.MeanOfNothing | frontend/src/utils/audioMath.js:15 | the mean of no vectors is the empty vector |
| AudioMath.ColumnSumBounds | frontend/src/utils/audioMath.js:18 | a column sum of `k` values in `[lo, hi]` lies in `[k·lo, k·hi]` |
| AudioMath.MeanBetween | frontend/src/utils/audioMath.js:18-19 | each coordinate of the mean lies between that coordinate's bounds across the inputs |
| AudioMath.MeanOfCopies | frontend/src/utils/audioMath.js:18-19 | the mean of k ≥ 1 copies of v is v |
| AudioMath.MeanOfOne | frontend/src/utils/audioMath.js:18-19 | `meanVectors([v]) == v` |
| Coach.CountContained | frontend/src/utils/coach.js:10 | each listed word adds at most 1 |
| Coach.CountContainedPositiveIff | frontend/src/utils/coach.js:10 | the count is positive exactly when some listed word occurs |
| Coach.NegativityScore | frontend/src/utils/coach.js:4-11 | the score lies between 0 and 10 |
| Coach.NegativityOfNothing | frontend/src/utils/coach.js:9 | a null/undefined or empty text scores 0 |
| Coach.NegativityIgnoresCase | frontend/src/utils/coach.js:9 | upper- or lower-casing the text does not change the score |
| Coach.NegativityCountsInfix | frontend/src/utils/coach.js:10 | a listed word inside a longer word still scores |
| Coach.NegativityPositiveIff | frontend/src/utils/coach.js:9-10 | the score is positive exactly when a listed word occurs in the lower-cased text |
| Coach.YouCount | frontend/src/utils/coach.js:16 | `t.split(/\byou\b/).length - 1`, the number of whole-word "you" matches; no ensures of its own: `YouCountPositiveIff`, `YouAsWordCounts` and `YouCountWithoutYou` state its properties |
| Coach.YouCountFromPositiveIff | frontend/src/utils/coach.js:16 | matches from index i exist exactly when a whole-word "you" starts at or after i |
| Coach.YouCountPositiveIff | frontend/src/utils/coach.js:16 | the `\byou\b` count is positive exactly when "you" occurs as a whole word |
| Coach.YouAsWordCounts | frontend/src/utils/coach.js:16 | "you" bounded by non-word characters or the ends is counted |
| Coach.YouCountWithoutYou | frontend/src/utils/coach.js:16 | text without "you" has no match |
| Coach.YouScore | frontend/src/utils/coach.js:13-19 | the value `youStatementScore` returns, the whole-word count plus one per absolute present; `YouStatementScore` is proved to return it |
| Coach.YouStatementScore | frontend/src/utils/coach.js:13-19 | the loop returns the whole-word count plus one per absolute present, a bonus between 0 and 4 |
| Coach.Recent | frontend/src/utils/coach.js:24 | a turn is kept exactly when `now - ts <= windowSec` |
| Coach.RecentAppend | frontend/src/utils/coach.js:24 | filtering a concatenation filters each part, keeping order and repeats |
| Coach.CountBy | frontend/src/utils/coach.js:27-28 | the per-speaker count never exceeds the number of turns |
| Coach.CountByZero | frontend/src/utils/coach.js:27-28 | a speaker with no turn counts 0 |
| Coach.TakeLast | frontend/src/utils/coach.js:32 | for n > 0, `slice(-n)` is the last min(n, length) elements |
| Coach.Texts | frontend/src/utils/coach.js:32 | one text per turn, in order |
| Coach.RatioIff | frontend/src/utils/coach.js:30 | `m / t >= 0.75` exactly when `4m >= 3t` |
| Coach.LastTexts | frontend/src/utils/coach.js:32 | the texts of the last ten recent turns, in order; `LexicalFlagsReadLastTexts` states that the lexical flags read only these |
| Coach.NegHits | frontend/src/utils/coach.js:33 | the sum of `negativityScore` over the last texts; `FlagsOfRecent` states the negativity flag is present exactly when it reaches 2 |
| Coach.YouHits | frontend/src/utils/coach.js:34 | the sum of `youStatementScore` over the last texts; `FlagsOfRecent` states the you-statements flag is present exactly when it reaches 2 |
| Coach.DominanceRatio | frontend/src/utils/coach.js:29-30 | `max(s1, s2) / max(1, s1 + s2)`; `DominanceIff` states the 0.75 test in integer form |
| Coach.DominanceIff | frontend/src/utils/coach.js:29-30 | the dominance test is `4·max(s1,s2) >= 3·max(1, s1+s2)` |
| Coach.CanonicalOrderBounds | frontend/src/utils/coach.js:36-41 | an ordered flag list has at most three entries and no duplicates |
| Coach.RankAtLeastIndex | frontend/src/utils/coach.js:36-41 | in an ordered flag list the k-th flag has rank at least k |
| Coach.FlagList | frontend/src/utils/coach.js:36-41 | flags are in canonical order, each present exactly when its test holds |
| Coach.FlagsOfRecent | frontend/src/utils/coach.js:27-41 | dominance ⟺ the 3/4 test on s1/s2 counts; negativity and you_statements ⟺ their sums over the last ten recent texts reach 2 |
| Coach.Flags | frontend/src/utils/coach.js:22-42 | no recent turn gives `[]`; the result is an ordered subsequence of the three flags |
| Coach.ComputeFlags | frontend/src/utils/coach.js:22-42 | the sequential pushes produce exactly `Flags` |
| Coach.NoSpeakersNoDominance | frontend/src/utils/coach.js:27-37 | without a recent s1/s2 turn there is no dominance flag |
| Coach.LexicalFlagsReadLastTexts | frontend/src/utils/coach.js:32-39 | the negativity and you_statements flags depend only on the last ten recent texts |
| ChatInput.Accepts | frontend/components/ChatInput.jsx:166 | a calibration frame is kept when it has a non-empty MFCC vector and `(rms ?? 0) > 0.0002`; `AcceptedSound` and `AcceptedComplete` state that `Accepted` keeps exactly these frames |
| ChatInput.Accepted | frontend/components/ChatInput.jsx:165-169 | no vector is kept exactly when no frame passes the filter |
| ChatInput.AcceptedSound | frontend/components/ChatInput.jsx:166-167 | every kept vector is the non-empty feature vector of an accepted frame |
| ChatInput.AcceptedComplete | frontend/components/ChatInput.jsx:166-167 | every accepted frame's feature vector is kept |
| ChatInput.AcceptedSnoc | frontend/components/ChatInput.jsx:165-169 | a further frame adds its vector at the end exactly when it is accepted |
| ChatInput.AcceptedAppend | frontend/components/ChatInput.jsx:165-169 | filtering a split capture filters each part, keeping order and repeats |
| ChatInput.AcceptedFrames | frontend/components/ChatInput.jsx:165-169 | the callback loop keeps exactly the accepted frames' vectors, in order |
| ChatInput.AcceptedCoversWidth | frontend/components/ChatInput.jsx:180 | frames of one dimension give a well-formed mean input |
| ChatInput.AcceptedMeanShape | frontend/components/ChatInput.jsx:178-180 | with an accepted frame the mean is defined and non-empty |
| ChatInput.AcceptedOfCopies | frontend/components/ChatInput.jsx:165-169 | k copies of an accepted frame keep k copies of its vector |
| ChatInput.CalibrateOnCopies | frontend/components/ChatInput.jsx:165-182 | calibrating on copies of one accepted frame stores exactly its vector |
| ChatInput.NoiseUpdate | frontend/components/ChatInput.jsx:221-223 | below 1.5·floor the new floor lies between rms and the old floor; otherwise it is unchanged |
| ChatInput.VadThreshold | frontend/components/ChatInput.jsx:224 | the threshold is the larger of VAD_MIN and floor·VAD_MULT |
| ChatInput.Score | frontend/components/ChatInput.jsx:228-230 | the cosine score against a stored print, null when there is none; `ChatInputState.ScoreAgainstPrints` is proved to compute it |
| ChatInput.Candidate | frontend/components/ChatInput.jsx:233-240 | one print gives that speaker; with two, a speaker is chosen exactly when it leads by strictly more than 0.08 |
| ChatInput.PushWindow | frontend/components/ChatInput.jsx:243-245 | FIFO push: the result is the tail of `w + [c]`, of length min(|w| + 1, 8), so a full window drops only its oldest entry |
| ChatInput.CountLabel | frontend/components/ChatInput.jsx:246-247 | a label count never exceeds the window length |
| ChatInput.CountsPartition | frontend/components/ChatInput.jsx:246-247 | the s1 and s2 counts add up to the window length |
| ChatInput.Majority | frontend/components/ChatInput.jsx:246-248 | s1/s2 exactly when it holds a strict majority, none exactly on a tie |
| ChatInput.Activate | frontend/components/ChatInput.jsx:81-85 | `setActiveSpeaker` on the tracker, the same update `ChatInputState.SetActiveSpeaker` makes on the fields; the ensures of `ChooseAndSmooth` and `PushCandidate` are stated with it |
| ChatInput.LiveStep | frontend/components/ChatInput.jsx:217-252 | the whole live callback on the tracked state; `ChatInputState.OnLiveFrame` and `ClassifyFrame` are proved to compute it, and the `LiveStep*` lemmas below state its properties |
| ChatInput.LiveStepWithoutFeatures | frontend/components/ChatInput.jsx:218 | a frame without a non-empty MFCC vector leaves the tracker unchanged |
| ChatInput.LiveStepKeepsTrackerOk | frontend/components/ChatInput.jsx:217-251 | every frame keeps the window at most eight long and the active speaker equal to the last confirmed one |
| ChatInput.LiveStepFloor | frontend/components/ChatInput.jsx:221-223 | the floor moves only for frames under 1.5·floor, and then towards rms |
| ChatInput.LiveStepQuiet | frontend/components/ChatInput.jsx:224-225 | a frame under the threshold clears the active speaker and leaves window and last speaker alone |
| ChatInput.LiveStepVoiced | frontend/components/ChatInput.jsx:228-251 | no candidate clears the active speaker without touching the window; a candidate is appended and the majority becomes active |
| ChatInput.LiveStepWithoutPrints | frontend/components/ChatInput.jsx:228-231 | with no print stored a voiced frame only moves the noise floor |
| ChatInput.Attribution | frontend/components/ChatInput.jsx:274 | the last confirmed speaker, or s1 before any (also used at line 329); `OnSpeechResult` and `HandleSubmit` state that sent text is attributed by it |
| ChatInput.Pending | frontend/components/ChatInput.jsx:268 | the results from `resultIndex` to the end; `CollectTranscripts` is proved to read exactly these |
| ChatInput.FinalText | frontend/components/ChatInput.jsx:267-270 | the final transcripts, each followed by a space; `FinalTextEmptyIff` and `CollectTranscripts` state its properties |
| ChatInput.InterimText | frontend/components/ChatInput.jsx:267-271 | the interim transcripts concatenated; `CollectTranscripts` is proved to compute it |
| ChatInput.FinalTextEmptyIff | frontend/components/ChatInput.jsx:267-273 | the final text is empty exactly when no result is final |
| ChatInput.CollectTranscripts | frontend/components/ChatInput.jsx:267-271 | the loop concatenates final texts (each plus a space) and interim texts from `resultIndex` on |
| ChatInput.ChatInputState.constructor | frontend/components/ChatInput.jsx:63-104 | idle, not listening, no prints, previews or speakers, empty window, floor 0.0015 |
| ChatInput.ChatInputState.SetActiveSpeaker | frontend/components/ChatInput.jsx:81-85 | the active speaker is set, and the last confirmed speaker follows only non-null labels |
| ChatInput.ChatInputState.RecordCalibration | frontend/components/ChatInput.jsx:147-184 | null exactly when no frame is accepted (prints untouched); otherwise the mean of the accepted frames becomes that speaker's print and preview, the other speaker's untouched |
| ChatInput.ChatInputState.StorePrint | frontend/components/ChatInput.jsx:180-182 | the mean becomes that speaker's print and preview only |
| ChatInput.ChatInputState.PrintsLookTooSimilar | frontend/components/ChatInput.jsx:187-191 | true exactly when both prints exist and their cosine exceeds 0.95 |
| ChatInput.ChatInputState.OnLiveFrame | frontend/components/ChatInput.jsx:217-252 | the callback performs `LiveStep` on the tracked state and keeps the invariant |
| ChatInput.ChatInputState.ClassifyFrame | frontend/components/ChatInput.jsx:217-252 | the callback body computes `LiveStep` |
| ChatInput.ChatInputState.ChooseAndSmooth | frontend/components/ChatInput.jsx:233-251 | no candidate clears the active speaker and keeps the window; a candidate is pushed and the window's majority becomes active |
| ChatInput.ChatInputState.ScoreAgainstPrints | frontend/components/ChatInput.jsx:228-230 | a score per stored print, none for a missing print |
| ChatInput.ChatInputState.PushCandidate | frontend/components/ChatInput.jsx:243-248 | push, shift and majority vote: the window becomes `PushWindow` and its majority becomes active |
| ChatInput.ChatInputState.OnSpeechResult | frontend/components/ChatInput.jsx:266-279 | a message is sent exactly when some pending result is final; it is the trimmed final text attributed to the last confirmed speaker (or s1), and the input clears; interim text is replaced |
| ChatInput.ChatInputState.SetInput | frontend/components/ChatInput.jsx:506 | the input becomes the typed text |
| ChatInput.ChatInputState.HandleSubmit | frontend/components/ChatInput.jsx:325-333 | nothing is sent exactly when the input is all white space; otherwise the trimmed text goes to the last confirmed speaker (or s1) and input and interim clear |
| ChatInput.ChatInputState.StartListeningFlow | frontend/components/ChatInput.jsx:293-309 | from idle with the microphone: prints, previews and window cleared, no active speaker, s1_prompt; the last confirmed speaker is kept |
| ChatInput.ChatInputState.StartRecording | frontend/components/ChatInput.jsx:341-348 | from one of that speaker's phases, when not recording: preview cleared, record phase entered |
| ChatInput.ChatInputState.ReRecord | frontend/components/ChatInput.jsx:371-376 | from that speaker's review, when not recording: record phase entered, preview kept |
| ChatInput.ChatInputState.CompleteRecording | frontend/components/ChatInput.jsx:348-354 | insufficient audio exactly when no frame is accepted, then back to the prompt with prints untouched; otherwise the print is stored and review entered |
| ChatInput.ChatInputState.NextSpeaker | frontend/components/ChatInput.jsx:367-370 | s1_review advances to s2_prompt; any other phase is unchanged |
| ChatInput.ChatInputState.StartLive | frontend/components/ChatInput.jsx:428 | s2_review with the microphone enters live and starts listening |
| ChatInput.ChatInputState.StopListening | frontend/components/ChatInput.jsx:311-322 | the whole new state is `Stopped` of the old one: idle, not listening, empty window, no active speaker, interim cleared, everything else kept |
| ChatInput.ChatInputState.OnRecognitionEnd | frontend/components/ChatInput.jsx:281 | listening stops and the interim line clears |
| ChatInput.Stopped | frontend/components/ChatInput.jsx:317-321 | the stopped state is idle, not listening, with no interim line, no active speaker and an empty window; every other field, prints and noise floor included, is kept |
| ChatInput.StoppedIdempotent | frontend/components/ChatInput.jsx:311-322 | stopping twice gives the same state as stopping once |
| ChatInput.CalibrationRoundTrip | frontend/components/ChatInput.jsx:165-183 | calibrating on copies of a frame and scoring that frame gives similarity 1 and candidate s1 |
| ChatInput.QuietFrameIsSilence | frontend/components/ChatInput.jsx:224-225 | a frame under VAD_MIN is below the threshold whatever the floor |
| ChatInput.TieIsNone | frontend/components/ChatInput.jsx:248 | equal label counts smooth to no speaker |
| App.TurnOf | frontend/src/App.jsx:59 | a message as a coach turn (`{ speaker, text, ts }`); `HumanTurnsAppend` and `BotMessagesIgnored` state how turns follow messages |
| App.HumanTurns | frontend/src/App.jsx:56-57 | only s1/s2 messages become turns |
| App.HumanTurnsAppend | frontend/src/App.jsx:56-59 | appending a message adds its turn exactly when it is from a human |
| App.TurnsOf | frontend/src/App.jsx:56-59 | the last min(20, n) of the n human turns, in their original order, all human |
| App.BotMessagesIgnored | frontend/src/App.jsx:55-59 | a coach message never changes the turns |
| App.CoachDecision | frontend/src/App.jsx:44-72 | a request carries the last twenty human turns (at least two), their flags (at least two), the fixed speaker labels and the decision time |
| App.CoachDecisionIff | frontend/src/App.jsx:45-65 | a request is made exactly when every guard passes |
| App.RateLimited | frontend/src/App.jsx:47-48 | within 30 s of the last intervention no request is made |
| App.FreshMessageNeverCoaches | frontend/src/App.jsx:50-53 | a last message less than a second old blocks the request |
| App.OneSignalIsNotEnough | frontend/src/App.jsx:63-65 | fewer than two flags never reach the service |
| App.AppState.constructor | frontend/src/App.jsx:10-14 | no messages, coaching enabled, last intervention at 0 |
| App.AppState.Mount | frontend/src/App.jsx:92-101 | the list becomes the single intro message |
| App.AppState.SetCoachingEnabled | frontend/src/App.jsx:111-115 | the checkbox sets the switch |
| App.AppState.MaybeCoach | frontend/src/App.jsx:44-65 | the guard chain computes `CoachDecision` |
| App.AppState.HandleSend | frontend/src/App.jsx:33-41 | exactly one message is appended and the rest kept; when the two clock reads are under a second apart no request is made |
| App.AppState.CoachAfterLull | frontend/src/App.jsx:44-65 | after a pause, a request is made exactly when every guard passes |
| App.Intervenes | frontend/src/App.jsx:76 | the reply asks to intervene and carries a non-empty message; `AppState.ApplyReply` states that exactly such a reply changes the state |
| App.AppState.ApplyReply | frontend/src/App.jsx:76-81 | a reply with should_intervene and a message sets the decision time and appends one bot message; anything else changes nothing |
| Worklet.FlattenPush | frontend/src/worklets/capture-processor.js:29 | posting a frame extends the stream by that frame |
| Worklet.FlattenLength | frontend/src/worklets/capture-processor.js:27-30 | n frames of one size hold n·size samples |
| Worklet.FrameIsSlice | frontend/src/worklets/capture-processor.js:27-30 | posted frame k is the stream's slice [k·size, k·size+size) |
| Worklet.PendingIsTail | frontend/src/worklets/capture-processor.js:19-32 | the buffered samples are the stream after the last complete frame |
| Worklet.FrameCount | frontend/src/worklets/capture-processor.js:19-32 | frames posted in one call are `(offset + L) div size`; the new offset is `(offset + L) mod size` |
| Worklet.DivModUnique | frontend/src/worklets/capture-processor.js:21-22 | `n == q·d + r` with `0 <= r < d` determines quotient and remainder |
| Worklet.ChannelData | frontend/src/worklets/capture-processor.js:14-17 | the channel exists exactly when there is a first input with that channel |
| Worklet.CaptureProcessor.constructor | frontend/src/worklets/capture-processor.js:5-11 | frame size 1024 when missing or 0, channel 0 when missing, a zeroed buffer, offset 0 |
| Worklet.CaptureProcessor.CopyIn | frontend/src/worklets/capture-processor.js:23 | the slice is copied at the offset and the rest of the buffer is unchanged |
| Worklet.CaptureProcessor.Process | frontend/src/worklets/capture-processor.js:13-35 | always true; no usable channel changes nothing; otherwise the samples are fed, the earlier frames kept, and frame count and offset follow div/mod |
| Worklet.CaptureProcessor.Feed | frontend/src/worklets/capture-processor.js:19-32 | the loop preserves the stream invariant and ends with offset below the frame size |
| Worklet.CaptureProcessor.CopyStep | frontend/src/worklets/capture-processor.js:21-31 | each pass copies at least one sample and keeps the stream invariant |
| Worklet.CaptureProcessor.PostFrame | frontend/src/worklets/capture-processor.js:27-31 | a full buffer is posted as one frame-sized copy and the offset resets |

## Left out

- Meyda feature extraction, the Web Audio graph (`ensureAudio`, analysers, the silent gain node), `getUserMedia` and the waveform canvases are foreign library and device calls. Frames are given as `Frame` values; whether the microphone opened is the `micOk` parameter.
- The SpeechRecognition and SpeechSynthesis objects are left out; only the concatenation of a given results list is modelled. `speakInstruction`, `speakBot` and `alert` are output only.
- `fetch('/api/coach')` and its JSON parsing are left out. The reply is an `Option<CoachReply>` parameter of `ApplyReply`, and `None` stands for a thrown request. `isThinking` is not modelled.
- The calibration countdown, `setTimeout`, `async`/`await` interleaving and React state batching are concurrency and timing. A capture window is the sequence of frames passed to `CompleteRecording`.
- The debug overlay, `VoicePrintCard`, `showDebug` and all rendering are left out. Button visibility is modelled as the phase guard of each handler.
- Floating point is not modelled. Amplitudes, scores and times are exact reals, and Float32 storage in the worklet is not rounded.
- `Math.sqrt` is an opaque parameter. Hence no bounds on cosine similarity (the range [-1, 1], `cos(a, a) = 1`) are proved.
- In `computeFlags`, the function's own `Date.now()` is taken equal to the decision time passed in by `maybeCoach`.
- A live frame's `rms` is a real; an undefined `rms` in live mode is not modelled. Calibration does model a missing `rms` as 0.
- A negative or non-integer `frameSize` option is not modelled; the option is a natural number. A negative size makes the constructor throw. A positive non-integer size such as 2.5 gives a buffer of its integer part while the fractional size stays in the offset arithmetic, so a later pass writes past the buffer and `process` throws.
- A negative or non-integer `channel` option is not modelled either; the option is a natural number. In the source, such a channel reads `undefined`, so `process` returns true without feeding anything.
- ChatInput.ChatInputState.OnLiveFrame and ChatInput.ChatInputState.OnSpeechResult: accept their events in any phase. In the component, the analyser callback and `rec.onresult` only fire between `startLive` and `stopListening`; the model allows more event orders than can occur.
- ChatInput.ChatInputState.RecordCalibration: requires all frames to have the same dimension (`SameDimension`). This is what the extractor guarantees; `meanVectors` on ragged input would read `undefined`.
- ChatInput.ChatInputState.CompleteRecording: inherits the same `SameDimension` requirement on the captured frames, for the same reason.
- Strings.Trim: the contract does not state that the result is a slice of the input. The slice property is stated separately by `TrimStart` and `TrimEnd`.
- Strings.Lower: only the ASCII letters A–Z are lowercased; other Unicode case mappings are not modelled.

## Findings

| source | as written | input that shows it | evidently intended | confidence | as-written member | corrected member |
|---|---|---|---|---|---|---|
| frontend/src/App.jsx:33-53 | `handleSend` stamps the message with `Date.now()` and, within milliseconds, from inside the `setMessages` updater, calls `maybeCoach`, which reads `Date.now()` again and requires `now - last.ts >= 1.0`. The lull is about 0, so `maybeCoach` never reaches the service from the only place it is called. | any message sent with coaching on, two or more s1/s2 turns and two or more flags, with the two clock reads less than 1 s apart | the coach decision is taken after the conversation has paused for a second | not executed | App.AppState.HandleSend (with App.FreshMessageNeverCoaches) | App.AppState.CoachAfterLull (with App.CoachDecisionIff) |
