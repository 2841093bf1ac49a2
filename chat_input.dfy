/**
 * The diarisation engine behind the chat input: the guided two-speaker
 * calibration, the per-frame live classifier (adaptive noise-floor voice
 * activity detection, margin-based candidate choice, majority vote over the
 * last eight candidates) and the attribution of transcripts and typed text to
 * the last confirmed speaker.
 */
module ChatInput {
  import opened Wrappers
  import opened Labels
  import opened Strings
  import opened AudioMath

  /* Tunables */
  const CalibMinRms: real := 0.0002
  const VadMin: real := 0.004
  const VadMult: real := 2.5
  const NoiseDecay: real := 0.98
  const NoiseAlpha: real := 0.02
  /** A frame quieter than this multiple of the noise floor looks like background noise. */
  const NoiseGate: real := 1.5
  const CosineMargin: real := 0.08
  const SmoothWindow: nat := 8
  const InitialNoiseFloor: real := 0.0015
  const TooSimilar: real := 0.95

  /** idle -> s1_prompt -> s1_record -> s1_review -> s2_prompt -> s2_record -> s2_review -> live */
  datatype Phase = Idle | S1Prompt | S1Record | S1Review | S2Prompt | S2Record | S2Review | Live

  function PromptOf(who: Speaker): (p: Phase) {
    if who == S1 then S1Prompt else S2Prompt
  }

  function RecordOf(who: Speaker): (p: Phase) {
    if who == S1 then S1Record else S2Record
  }

  function ReviewOf(who: Speaker): (p: Phase) {
    if who == S1 then S1Review else S2Review
  }

  /** `phase.startsWith('s1')` (or 's2'): the phases in which that speaker's panel is shown. */
  predicate InPanel(phase: Phase, who: Speaker) {
    phase == PromptOf(who) || phase == RecordOf(who) || phase == ReviewOf(who)
  }

  /** One feature frame as the extractor delivers it: MFCC vector and RMS, either possibly missing. */
  datatype Frame = Frame(mfcc: Option<seq<real>>, rms: Option<real>)

  /** One entry of a speech-recognition results list. */
  datatype SpeechResult = SpeechResult(transcript: string, isFinal: bool)

  /** The argument of `onSend`. */
  datatype Outgoing = Outgoing(text: string, speaker: Speaker)

  /** `mfcc && mfcc.length`: a feature vector is present and non-empty. */
  predicate HasFeatures(mfcc: Option<seq<real>>) {
    mfcc.Some? && |mfcc.value| > 0
  }

  // ---------------------------------------------------------------------------
  // Calibration frame filter

  /** Calibration keeps a frame iff it has features and `(rms ?? 0) > CALIB_MIN_RMS`. */
  predicate Accepts(f: Frame) {
    HasFeatures(f.mfcc) && f.rms.GetOr(0.0) > CalibMinRms
  }

  /** The feature vectors of the accepted frames, in arrival order. */
  function Accepted(frames: seq<Frame>): (r: seq<seq<real>>)
    ensures |r| <= |frames|
    ensures r == [] <==> forall k | 0 <= k < |frames| :: !Accepts(frames[k])
  {
    if frames == [] then []
    else
      var init, last := frames[..|frames| - 1], frames[|frames| - 1];
      var r := Accepted(init) + (if Accepts(last) then [last.mfcc.value] else []);
      assert forall k | 0 <= k < |init| :: init[k] == frames[k];
      r
  }

  /** Every kept vector is the non-empty feature vector of an accepted frame. */
  lemma {:induction false} AcceptedSound(frames: seq<Frame>)
    ensures forall v | v in Accepted(frames) ::
              |v| > 0 && exists k | 0 <= k < |frames| :: Accepts(frames[k]) && frames[k].mfcc == Some(v)
  {
    if frames != [] {
      var init := frames[..|frames| - 1];
      AcceptedSound(init);
      assert forall k | 0 <= k < |init| :: init[k] == frames[k];
    }
  }

  /** Every accepted frame's feature vector is kept. */
  lemma {:induction false} AcceptedComplete(frames: seq<Frame>)
    ensures forall k | 0 <= k < |frames| && Accepts(frames[k]) :: frames[k].mfcc.value in Accepted(frames)
  {
    if frames != [] {
      var init := frames[..|frames| - 1];
      AcceptedComplete(init);
      assert forall k | 0 <= k < |init| :: init[k] == frames[k];
    }
  }

  /** Filtering a split capture is filtering each part: order and multiplicity are kept. */
  lemma {:induction false} AcceptedAppend(a: seq<Frame>, b: seq<Frame>)
    ensures Accepted(a + b) == Accepted(a) + Accepted(b)
  {
    if b == [] {
      assert a + b == a;
    } else {
      var init, last := b[..|b| - 1], b[|b| - 1];
      assert b == init + [last];
      assert a + b == (a + init) + [last];
      AcceptedSnoc(a + init, last);
      AcceptedSnoc(init, last);
      AcceptedAppend(a, init);
    }
  }

  lemma AcceptedSnoc(frames: seq<Frame>, f: Frame)
    ensures Accepted(frames + [f]) == Accepted(frames) + (if Accepts(f) then [f.mfcc.value] else [])
  {
    assert (frames + [f])[..|frames|] == frames;
  }

  /** The extractor's frames all have the same number of coefficients. */
  predicate SameDimension(frames: seq<Frame>) {
    forall i, j | 0 <= i < |frames| && 0 <= j < |frames| ::
      frames[i].mfcc.Some? && frames[j].mfcc.Some? ==> |frames[i].mfcc.value| == |frames[j].mfcc.value|
  }

  lemma AcceptedCoversWidth(frames: seq<Frame>)
    requires SameDimension(frames)
    ensures CoversWidth(Accepted(frames))
  {
    var r := Accepted(frames);
    AcceptedSound(frames);
    if r != [] {
      assert r[0] in r;
      forall k | 0 <= k < |r| ensures Width(r) <= |r[k]| {
        assert r[k] in r;
      }
    }
  }

  /** The filter loop of recordCalibration, keeping the accepted frames' vectors in order. */
  method AcceptedFrames(frames: seq<Frame>) returns (accepted: seq<seq<real>>)
    ensures accepted == Accepted(frames)
  {
    accepted := [];
    for k := 0 to |frames|
      invariant accepted == Accepted(frames[..k])
    {
      assert frames[..k + 1][..k] == frames[..k];
      if Accepts(frames[k]) {
        accepted := accepted + [frames[k].mfcc.value];
      }
    }
    assert frames[..|frames|] == frames;
  }

  /** With at least one accepted frame, the mean is defined and has at least one coordinate. */
  lemma AcceptedMeanShape(frames: seq<Frame>)
    requires SameDimension(frames) && Accepted(frames) != []
    ensures CoversWidth(Accepted(frames)) && |Mean(Accepted(frames))| > 0
  {
    AcceptedCoversWidth(frames);
    assert Accepted(frames)[0] in Accepted(frames);
  }

  /** k copies of one accepted frame calibrate to exactly its feature vector. */
  lemma CalibrateOnCopies(f: Frame, k: nat)
    requires Accepts(f) && k >= 1
    ensures Accepted(seq(k, _ => f)) == seq(k, _ => f.mfcc.value)
    ensures CoversWidth(Accepted(seq(k, _ => f))) && Mean(Accepted(seq(k, _ => f))) == f.mfcc.value
  {
    AcceptedOfCopies(f, k);
    MeanOfCopies(f.mfcc.value, k);
  }

  lemma {:induction false} AcceptedOfCopies(f: Frame, k: nat)
    requires Accepts(f)
    ensures Accepted(seq(k, _ => f)) == seq(k, _ => f.mfcc.value)
  {
    if k > 0 {
      AcceptedOfCopies(f, k - 1);
      assert seq(k, _ => f)[..k - 1] == seq(k - 1, _ => f);
      assert seq(k, _ => f.mfcc.value) == seq(k - 1, _ => f.mfcc.value) + [f.mfcc.value];
    }
  }

  // ---------------------------------------------------------------------------
  // Live classification

  predicate Between(x: real, a: real, b: real) {
    (a <= x <= b) || (b <= x <= a)
  }

  /** The noise floor after one frame: an EWMA step, only for frames under 1.5 times the floor. */
  function NoiseUpdate(floor: real, rms: real): (r: real)
    ensures rms < floor * NoiseGate ==> Between(r, rms, floor)
    ensures !(rms < floor * NoiseGate) ==> r == floor
  {
    if rms < floor * NoiseGate then NoiseDecay * floor + NoiseAlpha * rms else floor
  }

  /** `Math.max(VAD_MIN, floor * VAD_MULT)`: never below VAD_MIN. */
  function VadThreshold(floor: real): (r: real)
    ensures r >= VadMin && r >= floor * VadMult
    ensures r == VadMin || r == floor * VadMult
  {
    if VadMin > floor * VadMult then VadMin else floor * VadMult
  }

  /** The similarity to a stored voiceprint, absent when none is stored. */
  function Score(features: seq<real>, vp: Option<seq<real>>, sqrt: real -> real): (score: Option<real>) {
    if vp.Some? then Some(Cosine(features, vp.value, sqrt)) else None
  }

  /**
   * The per-frame candidate: the only scored speaker, or with two scores the
   * higher scorer when it leads by strictly more than the margin, else none.
   */
  function Candidate(s1: Option<real>, s2: Option<real>): (c: Option<Speaker>)
    requires s1.Some? || s2.Some?
    ensures s2.None? ==> c == Some(S1)
    ensures s1.None? ==> c == Some(S2)
    ensures s1.Some? && s2.Some? ==>
              (c == Some(S1) <==> s1.value - s2.value > CosineMargin) &&
              (c == Some(S2) <==> s2.value - s1.value > CosineMargin)
  {
    if s1.Some? && s2.Some? then
      var top := if s1.value > s2.value then s1.value else s2.value;
      var second := if s1.value < s2.value then s1.value else s2.value;
      if top - second > CosineMargin then (if s1.value > s2.value then Some(S1) else Some(S2)) else None
    else if s1.Some? then Some(S1)
    else Some(S2)
  }

  /** Push at the back, then drop the oldest entry if the window holds more than eight. */
  function PushWindow(w: seq<Speaker>, c: Speaker): (r: seq<Speaker>)
    ensures |w| <= SmoothWindow ==> |r| <= SmoothWindow
    ensures |w| < SmoothWindow ==> r == w + [c]
    ensures |w| <= SmoothWindow ==> |r| == (if |w| < SmoothWindow then |w| + 1 else SmoothWindow)
    ensures 0 < |r| <= |w| + 1 && r == (w + [c])[|w| + 1 - |r|..]
  {
    var p := w + [c];
    if |p| > SmoothWindow then p[1..] else p
  }

  /** `window.filter(l => l === s).length` */
  function CountLabel(w: seq<Speaker>, s: Speaker): (r: nat)
    ensures r <= |w|
  {
    if w == [] then 0 else (if w[0] == s then 1 else 0) + CountLabel(w[1..], s)
  }

  lemma {:induction false} CountsPartition(w: seq<Speaker>)
    ensures CountLabel(w, S1) + CountLabel(w, S2) == |w|
  {
    if w != [] {
      CountsPartition(w[1..]);
    }
  }

  /** The smoothed speaker: the who holding a strict majority of the window, none on a tie. */
  function Majority(w: seq<Speaker>): (r: Option<Speaker>)
    ensures r == Some(S1) <==> 2 * CountLabel(w, S1) > |w|
    ensures r == Some(S2) <==> 2 * CountLabel(w, S2) > |w|
    ensures r == None <==> 2 * CountLabel(w, S1) == |w|
  {
    CountsPartition(w);
    var s1c, s2c := CountLabel(w, S1), CountLabel(w, S2);
    if s1c == s2c then None else if s1c > s2c then Some(S1) else Some(S2)
  }

  /** Transcripts and typed text go to the last confirmed speaker, or to s1 before any. */
  function Attribution(lastNonNull: Option<Speaker>): (who: Speaker) {
    lastNonNull.GetOr(S1)
  }

  /** The live classifier's state: noise floor, candidate window, active and last confirmed speaker. */
  datatype Tracker = Tracker(noiseFloor: real, window: seq<Speaker>, active: Option<Speaker>, lastNonNull: Option<Speaker>)

  /** setActiveSpeaker on the tracker. */
  function Activate(t: Tracker, a: Option<Speaker>): (t': Tracker) {
    t.(active := a, lastNonNull := if a.Some? then a else t.lastNonNull)
  }

  /**
   * One frame of the live callback. A frame without features changes nothing.
   * Otherwise the noise floor adapts; a frame under the VAD threshold clears
   * the active speaker; with no print stored nothing more happens; otherwise
   * the frame's candidate (or its absence, which clears the active speaker)
   * goes through the majority-vote window.
   */
  function LiveStep(t: Tracker, s1Print: Option<seq<real>>, s2Print: Option<seq<real>>,
                    sqrt: real -> real, mfcc: Option<seq<real>>, rms: real): (t': Tracker)
  {
    if !HasFeatures(mfcc) then t
    else
      var t1 := t.(noiseFloor := NoiseUpdate(t.noiseFloor, rms));
      if rms < VadThreshold(t1.noiseFloor) then Activate(t1, None)
      else if s1Print.None? && s2Print.None? then t1
      else
        var c := Candidate(Score(mfcc.value, s1Print, sqrt), Score(mfcc.value, s2Print, sqrt));
        if c.None? then Activate(t1, None)
        else
          var w := PushWindow(t.window, c.value);
          Activate(t1.(window := w), Majority(w))
  }

  /** The tracker's own invariant: a bounded window, and an active speaker is also the last confirmed one. */
  predicate TrackerOk(t: Tracker) {
    |t.window| <= SmoothWindow && (t.active.Some? ==> t.lastNonNull == t.active)
  }

  /** Every frame keeps the window at eight entries or fewer and the last confirmed speaker current. */
  lemma LiveStepKeepsTrackerOk(t: Tracker, s1Print: Option<seq<real>>, s2Print: Option<seq<real>>,
                               sqrt: real -> real, mfcc: Option<seq<real>>, rms: real)
    requires TrackerOk(t)
    ensures TrackerOk(LiveStep(t, s1Print, s2Print, sqrt, mfcc, rms))
  {
  }

  /** A voiced frame leaves the noise floor where it was only if it is at least 1.5 times the floor. */
  lemma LiveStepFloor(t: Tracker, s1Print: Option<seq<real>>, s2Print: Option<seq<real>>,
                      sqrt: real -> real, mfcc: Option<seq<real>>, rms: real)
    requires HasFeatures(mfcc)
    ensures var r := LiveStep(t, s1Print, s2Print, sqrt, mfcc, rms);
            (rms < t.noiseFloor * NoiseGate ==> Between(r.noiseFloor, rms, t.noiseFloor)) &&
            (rms >= t.noiseFloor * NoiseGate ==> r.noiseFloor == t.noiseFloor)
  {
  }

  /** A frame under VAD_MIN, or under the adapted threshold, is silence: no active speaker, window untouched. */
  lemma LiveStepQuiet(t: Tracker, s1Print: Option<seq<real>>, s2Print: Option<seq<real>>,
                      sqrt: real -> real, mfcc: Option<seq<real>>, rms: real)
    requires HasFeatures(mfcc)
    requires rms < VadThreshold(NoiseUpdate(t.noiseFloor, rms))
    ensures var r := LiveStep(t, s1Print, s2Print, sqrt, mfcc, rms);
            r.active == None && r.window == t.window && r.lastNonNull == t.lastNonNull
  {
  }

  /**
   * A voiced frame with a candidate makes the active speaker the label holding
   * a strict majority of the updated window; a frame with no candidate clears it.
   */
  lemma LiveStepVoiced(t: Tracker, s1Print: Option<seq<real>>, s2Print: Option<seq<real>>,
                       sqrt: real -> real, mfcc: Option<seq<real>>, rms: real)
    requires HasFeatures(mfcc) && (s1Print.Some? || s2Print.Some?)
    requires rms >= VadThreshold(NoiseUpdate(t.noiseFloor, rms))
    ensures var c := Candidate(Score(mfcc.value, s1Print, sqrt), Score(mfcc.value, s2Print, sqrt));
            var r := LiveStep(t, s1Print, s2Print, sqrt, mfcc, rms);
            (c.None? ==> r.active == None && r.window == t.window) &&
            (c.Some? ==> r.window == PushWindow(t.window, c.value) &&
                         r.window[|r.window| - 1] == c.value &&
                         (r.active == Some(S1) <==> 2 * CountLabel(r.window, S1) > |r.window|) &&
                         (r.active == Some(S2) <==> 2 * CountLabel(r.window, S2) > |r.window|))
  {
  }

  /** A frame without features (no MFCC vector, or an empty one) leaves the tracker as it was. */
  lemma LiveStepWithoutFeatures(t: Tracker, s1Print: Option<seq<real>>, s2Print: Option<seq<real>>,
                                sqrt: real -> real, mfcc: Option<seq<real>>, rms: real)
    requires !HasFeatures(mfcc)
    ensures LiveStep(t, s1Print, s2Print, sqrt, mfcc, rms) == t
  {
  }

  /** With no voiceprint stored, a voiced frame only moves the noise floor. */
  lemma LiveStepWithoutPrints(t: Tracker, sqrt: real -> real, mfcc: Option<seq<real>>, rms: real)
    requires HasFeatures(mfcc) && rms >= VadThreshold(NoiseUpdate(t.noiseFloor, rms))
    ensures LiveStep(t, None, None, sqrt, mfcc, rms) == t.(noiseFloor := NoiseUpdate(t.noiseFloor, rms))
  {
  }

  // ---------------------------------------------------------------------------
  // Speech results

  /** The results from `resultIndex` on (none when the index is past the end). */
  function Pending(results: seq<SpeechResult>, resultIndex: nat): (pending: seq<SpeechResult>) {
    if resultIndex <= |results| then results[resultIndex..] else []
  }

  /** Every final transcript followed by a space, in order. */
  function FinalText(rs: seq<SpeechResult>): (text: string) {
    if rs == [] then ""
    else
      var last := rs[|rs| - 1];
      FinalText(rs[..|rs| - 1]) + (if last.isFinal then last.transcript + " " else "")
  }

  /** Every interim transcript, concatenated in order. */
  function InterimText(rs: seq<SpeechResult>): (text: string) {
    if rs == [] then ""
    else
      var last := rs[|rs| - 1];
      InterimText(rs[..|rs| - 1]) + (if last.isFinal then "" else last.transcript)
  }

  /** The final text is non-empty exactly when some result is final (even with an empty transcript). */
  lemma {:induction false} FinalTextEmptyIff(rs: seq<SpeechResult>)
    ensures FinalText(rs) == "" <==> forall k | 0 <= k < |rs| :: !rs[k].isFinal
  {
    if rs != [] {
      var init := rs[..|rs| - 1];
      FinalTextEmptyIff(init);
      assert forall k | 0 <= k < |init| :: init[k] == rs[k];
    }
  }

  /** onresult's loop over the results from `resultIndex` on. */
  method CollectTranscripts(results: seq<SpeechResult>, resultIndex: nat) returns (finalText: string, interimText: string)
    ensures finalText == FinalText(Pending(results, resultIndex))
    ensures interimText == InterimText(Pending(results, resultIndex))
  {
    finalText, interimText := "", "";
    if resultIndex > |results| {
      return;
    }
    var i := resultIndex;
    while i < |results|
      invariant resultIndex <= i <= |results|
      invariant finalText == FinalText(results[resultIndex..i])
      invariant interimText == InterimText(results[resultIndex..i])
    {
      assert results[resultIndex..i + 1][..i - resultIndex] == results[resultIndex..i];
      var text := results[i].transcript;
      if results[i].isFinal {
        finalText := finalText + text + " ";
      } else {
        interimText := interimText + text;
      }
      i := i + 1;
    }
    assert results[resultIndex..i] == Pending(results, resultIndex);
  }

  /** Every field of the component's state, as one value. */
  datatype Screen = Screen(phase: Phase, listening: bool, recordingFor: Option<Speaker>,
                           input: string, interim: string,
                           activeSpeaker: Option<Speaker>, lastNonNullSpeaker: Option<Speaker>,
                           s1Print: Option<seq<real>>, s2Print: Option<seq<real>>,
                           s1Preview: Option<seq<real>>, s2Preview: Option<seq<real>>,
                           speakerWindow: seq<Speaker>, noiseFloor: real)

  /**
   * The state stopListening leaves: idle, not listening, no interim line, no
   * active speaker, an empty window; everything else as it was.
   */
  function Stopped(s: Screen): (r: Screen)
    ensures r.phase == Idle && !r.listening && r.interim == "" && r.activeSpeaker == None && r.speakerWindow == []
    ensures r.(phase := s.phase, listening := s.listening, interim := s.interim,
               activeSpeaker := s.activeSpeaker, speakerWindow := s.speakerWindow) == s
  {
    s.(phase := Idle, listening := false, interim := "", activeSpeaker := None, speakerWindow := [])
  }

  /** Calling stopListening twice leaves the same state as calling it once. */
  lemma StoppedIdempotent(s: Screen)
    ensures Stopped(Stopped(s)) == Stopped(s)
  {
  }

  // ---------------------------------------------------------------------------
  // The component's state

  class ChatInputState {
    /** `Math.sqrt`, supplied by the environment; nothing about it is assumed. */
    const sqrt: real -> real

    var phase: Phase
    var listening: bool
    /** The speaker whose capture window is open (`isRecording`), if any. */
    var recordingFor: Option<Speaker>
    var input: string
    var interim: string
    var activeSpeaker: Option<Speaker>
    var lastNonNullSpeaker: Option<Speaker>
    var s1Print: Option<seq<real>>
    var s2Print: Option<seq<real>>
    var s1Preview: Option<seq<real>>
    var s2Preview: Option<seq<real>>
    var speakerWindow: seq<Speaker>
    var noiseFloor: real

    function PrintOf(who: Speaker): (vp: Option<seq<real>>)
      reads this
    {
      if who == S1 then s1Print else s2Print
    }

    function PreviewOf(who: Speaker): (preview: Option<seq<real>>)
      reads this
    {
      if who == S1 then s1Preview else s2Preview
    }

    ghost predicate Valid()
      reads this
    {
      && TrackerOk(Tracker(noiseFloor, speakerWindow, activeSpeaker, lastNonNullSpeaker))
      && (s1Print.Some? ==> |s1Print.value| > 0)
      && (s2Print.Some? ==> |s2Print.value| > 0)
      && (s1Preview.Some? ==> s1Preview == s1Print)
      && (s2Preview.Some? ==> s2Preview == s2Print)
      && (phase == S1Review ==> s1Preview.Some?)
      && (phase == S2Review ==> s2Preview.Some?)
      && (phase == S1Record ==> recordingFor == Some(S1))
      && (phase == S2Record ==> recordingFor == Some(S2))
    }

    constructor (sqrt: real -> real)
      ensures Valid() && this.sqrt == sqrt
      ensures phase == Idle && !listening && recordingFor == None
      ensures input == "" && interim == ""
      ensures activeSpeaker == None && lastNonNullSpeaker == None
      ensures s1Print == None && s2Print == None && s1Preview == None && s2Preview == None
      ensures speakerWindow == [] && noiseFloor == InitialNoiseFloor
    {
      this.sqrt := sqrt;
      phase := Idle;
      listening := false;
      recordingFor := None;
      input, interim := "", "";
      activeSpeaker, lastNonNullSpeaker := None, None;
      s1Print, s2Print, s1Preview, s2Preview := None, None, None, None;
      speakerWindow := [];
      noiseFloor := InitialNoiseFloor;
    }

    /** setActiveSpeaker: the last non-null who is remembered and never cleared. */
    method SetActiveSpeaker(who: Option<Speaker>)
      modifies this`activeSpeaker, this`lastNonNullSpeaker
      ensures activeSpeaker == who
      ensures lastNonNullSpeaker == if who.Some? then who else old(lastNonNullSpeaker)
    {
      activeSpeaker := who;
      if who.Some? {
        lastNonNullSpeaker := who;
      }
    }

    /**
     * recordCalibration after its capture window: keep the accepted frames;
     * none gives null and leaves the stored print alone, otherwise their mean
     * becomes `who`'s voiceprint and preview.
     */
    method RecordCalibration(who: Speaker, frames: seq<Frame>) returns (mfcc: Option<seq<real>>)
      requires Valid() && SameDimension(frames)
      modifies this`s1Print, this`s2Print, this`s1Preview, this`s2Preview
      ensures Valid()
      ensures mfcc.None? <==> forall k | 0 <= k < |frames| :: !Accepts(frames[k])
      ensures mfcc.None? ==>
                s1Print == old(s1Print) && s2Print == old(s2Print) &&
                s1Preview == old(s1Preview) && s2Preview == old(s2Preview)
      ensures mfcc.Some? ==>
                CoversWidth(Accepted(frames)) && mfcc.value == Mean(Accepted(frames)) &&
                PrintOf(who) == mfcc && PreviewOf(who) == mfcc
      ensures mfcc.Some? && who == S1 ==> s2Print == old(s2Print) && s2Preview == old(s2Preview)
      ensures mfcc.Some? && who == S2 ==> s1Print == old(s1Print) && s1Preview == old(s1Preview)
    {
      var accepted := AcceptedFrames(frames);
      if |accepted| == 0 {
        return None;
      }
      AcceptedMeanShape(frames);
      var mean := MeanVectors(accepted);
      StorePrint(who, mean);
      mfcc := Some(mean);
    }

    /** Stores the mean in that speaker's print ref and sets its preview to the same vector. */
    method StorePrint(who: Speaker, mean: seq<real>)
      requires Valid() && |mean| > 0
      modifies this`s1Print, this`s2Print, this`s1Preview, this`s2Preview
      ensures Valid()
      ensures PrintOf(who) == Some(mean) && PreviewOf(who) == Some(mean)
      ensures who == S1 ==> s2Print == old(s2Print) && s2Preview == old(s2Preview)
      ensures who == S2 ==> s1Print == old(s1Print) && s1Preview == old(s1Preview)
    {
      if who == S1 {
        s1Print := Some(mean);
        s1Preview := Some(mean);
      } else {
        s2Print := Some(mean);
        s2Preview := Some(mean);
      }
    }

    /** printsLookTooSimilar: both prints stored and their cosine above 0.95. */
    method PrintsLookTooSimilar() returns (r: bool)
      ensures r <==> s1Print.Some? && s2Print.Some? && Cosine(s1Print.value, s2Print.value, sqrt) > TooSimilar
    {
      if s1Print.None? || s2Print.None? {
        return false;
      }
      var sim := CosineSim(s1Print.value, s2Print.value, sqrt);
      r := sim > TooSimilar;
    }

    /** The part of the state the live classifier reads and writes. */
    function Tracked(): (t: Tracker)
      reads this
    {
      Tracker(noiseFloor, speakerWindow, activeSpeaker, lastNonNullSpeaker)
    }

    function Snapshot(): (s: Screen)
      reads this
    {
      Screen(phase, listening, recordingFor, input, interim, activeSpeaker, lastNonNullSpeaker,
             s1Print, s2Print, s1Preview, s2Preview, speakerWindow, noiseFloor)
    }

    /** The live analyser's frame callback; it keeps the component's invariant. */
    method OnLiveFrame(mfcc: Option<seq<real>>, rms: real)
      requires Valid()
      modifies this`noiseFloor, this`speakerWindow, this`activeSpeaker, this`lastNonNullSpeaker
      ensures Valid()
      ensures Tracked() == LiveStep(old(Tracked()), s1Print, s2Print, sqrt, mfcc, rms)
    {
      ghost var before := Tracked();
      ClassifyFrame(mfcc, rms);
      LiveStepKeepsTrackerOk(before, s1Print, s2Print, sqrt, mfcc, rms);
    }

    /** The body of the frame callback: adaptive VAD, scoring, candidate choice and smoothing. */
    method ClassifyFrame(mfcc: Option<seq<real>>, rms: real)
      requires Valid()
      modifies this`noiseFloor, this`speakerWindow, this`activeSpeaker, this`lastNonNullSpeaker
      ensures Tracked() == LiveStep(old(Tracked()), s1Print, s2Print, sqrt, mfcc, rms)
    {
      if mfcc.None? || |mfcc.value| == 0 {
        return;
      }
      var features := mfcc.value;

      // Adaptive VAD
      if rms < noiseFloor * NoiseGate {
        noiseFloor := NoiseDecay * noiseFloor + NoiseAlpha * rms;
      }
      var vadThreshold := if VadMin > noiseFloor * VadMult then VadMin else noiseFloor * VadMult;
      if rms < vadThreshold {
        SetActiveSpeaker(None);
        return;
      }

      // Score to prints
      var s1, s2 := ScoreAgainstPrints(features);
      if s1.None? && s2.None? {
        return;
      }
      ChooseAndSmooth(s1, s2);
    }

    /** The candidate choice and the majority-vote smoothing, once some print has scored. */
    method ChooseAndSmooth(s1: Option<real>, s2: Option<real>)
      requires s1.Some? || s2.Some?
      modifies this`speakerWindow, this`activeSpeaker, this`lastNonNullSpeaker
      ensures var c := Candidate(s1, s2);
              (c.None? ==> Tracked() == Activate(old(Tracked()), None)) &&
              (c.Some? ==> var w := PushWindow(old(speakerWindow), c.value);
                           Tracked() == Activate(old(Tracked()).(window := w), Majority(w)))
    {
      var candidate: Option<Speaker>;
      if s1.Some? && s2.Some? {
        var top := if s1.value > s2.value then s1.value else s2.value;
        var second := if s1.value < s2.value then s1.value else s2.value;
        candidate := if top - second > CosineMargin then (if s1.value > s2.value then Some(S1) else Some(S2)) else None;
      } else {
        candidate := if s1.Some? then Some(S1) else Some(S2);
      }
      assert candidate == Candidate(s1, s2);

      if candidate.Some? {
        PushCandidate(candidate.value);
      } else {
        SetActiveSpeaker(None);
      }
    }

    /** The similarity of a frame to each stored voiceprint. */
    method ScoreAgainstPrints(features: seq<real>) returns (s1: Option<real>, s2: Option<real>)
      ensures s1 == Score(features, s1Print, sqrt) && s2 == Score(features, s2Print, sqrt)
    {
      s1, s2 := None, None;
      if s1Print.Some? {
        var sim := CosineSim(features, s1Print.value, sqrt);
        s1 := Some(sim);
      }
      if s2Print.Some? {
        var sim := CosineSim(features, s2Print.value, sqrt);
        s2 := Some(sim);
      }
    }

    /** Majority-vote smoothing: push the candidate, then make the window's majority the active speaker. */
    method PushCandidate(c: Speaker)
      modifies this`speakerWindow, this`activeSpeaker, this`lastNonNullSpeaker
      ensures var w := PushWindow(old(speakerWindow), c);
              Tracked() == Activate(old(Tracked()).(window := w), Majority(w))
    {
      speakerWindow := speakerWindow + [c];
      if |speakerWindow| > SmoothWindow {
        speakerWindow := speakerWindow[1..];
      }
      var s1c := CountLabel(speakerWindow, S1);
      var s2c := CountLabel(speakerWindow, S2);
      SetActiveSpeaker(if s1c == s2c then None else if s1c > s2c then Some(S1) else Some(S2));
    }

    /**
     * The recogniser's onresult: final transcripts (each followed by a space)
     * are trimmed and sent as one message attributed to the last confirmed
     * speaker, clearing the typed input; interim text replaces the preview line.
     */
    method OnSpeechResult(results: seq<SpeechResult>, resultIndex: nat) returns (sent: Option<Outgoing>)
      modifies this`input, this`interim
      ensures var rs := Pending(results, resultIndex);
              (sent.Some? <==> exists k | 0 <= k < |rs| :: rs[k].isFinal) &&
              (sent.Some? ==> sent.value == Outgoing(Trim(FinalText(rs)), Attribution(lastNonNullSpeaker)) && input == "") &&
              (sent.None? ==> input == old(input)) &&
              interim == InterimText(rs)
    {
      var finalText, interimText := CollectTranscripts(results, resultIndex);
      sent := None;
      FinalTextEmptyIff(Pending(results, resultIndex));
      if finalText != "" {
        var speaker := Attribution(lastNonNullSpeaker);
        sent := Some(Outgoing(Trim(finalText), speaker));
        input := "";
      }
      interim := interimText;
    }

    /** The text field's onChange. */
    method SetInput(text: string)
      modifies this`input
      ensures input == text
    {
      input := text;
    }

    /** handleSubmit: typed text, trimmed, goes to the last confirmed speaker; white space alone sends nothing. */
    method HandleSubmit() returns (sent: Option<Outgoing>)
      modifies this`input, this`interim
      ensures sent.None? <==> AllSpace(old(input))
      ensures sent.Some? ==>
                sent.value == Outgoing(Trim(old(input)), Attribution(lastNonNullSpeaker)) &&
                input == "" && interim == ""
      ensures sent.None? ==> input == old(input) && interim == old(interim)
    {
      var text := Trim(input);
      TrimEmptyIff(input);
      if text == "" {
        return None;
      }
      var speaker := Attribution(lastNonNullSpeaker);
      sent := Some(Outgoing(text, speaker));
      input := "";
      interim := "";
    }

    /**
     * startListeningFlow (the idle screen's button): with the microphone
     * available, forget both voiceprints, empty the window, clear the active
     * speaker and prompt speaker one. The noise floor and the last confirmed
     * speaker are kept.
     */
    method StartListeningFlow(micOk: bool)
      requires Valid()
      modifies this`s1Print, this`s2Print, this`s1Preview, this`s2Preview
      modifies this`speakerWindow, this`activeSpeaker, this`lastNonNullSpeaker, this`phase
      ensures Valid()
      ensures lastNonNullSpeaker == old(lastNonNullSpeaker)
      ensures old(phase) == Idle && micOk ==>
                s1Print == None && s2Print == None && s1Preview == None && s2Preview == None &&
                speakerWindow == [] && activeSpeaker == None && phase == S1Prompt
      ensures !(old(phase) == Idle && micOk) ==>
                s1Print == old(s1Print) && s2Print == old(s2Print) &&
                s1Preview == old(s1Preview) && s2Preview == old(s2Preview) &&
                speakerWindow == old(speakerWindow) && activeSpeaker == old(activeSpeaker) && phase == old(phase)
    {
      if phase != Idle || !micOk {
        return;
      }
      s1Print, s2Print := None, None;
      s1Preview, s2Preview := None, None;
      speakerWindow := [];
      SetActiveSpeaker(None);
      phase := S1Prompt;
    }

    /**
     * "Start Speaker k Recording": shown whenever speaker k's panel is, disabled
     * while recording. Clears that speaker's preview and opens the capture window.
     */
    method StartRecording(who: Speaker)
      requires Valid()
      modifies this`phase, this`recordingFor, this`s1Preview, this`s2Preview
      ensures Valid()
      ensures InPanel(old(phase), who) && old(recordingFor).None? ==>
                phase == RecordOf(who) && recordingFor == Some(who) && PreviewOf(who) == None &&
                (who == S1 ==> s2Preview == old(s2Preview)) && (who == S2 ==> s1Preview == old(s1Preview))
      ensures !(InPanel(old(phase), who) && old(recordingFor).None?) ==>
                phase == old(phase) && recordingFor == old(recordingFor) &&
                s1Preview == old(s1Preview) && s2Preview == old(s2Preview)
    {
      if !InPanel(phase, who) || recordingFor.Some? {
        return;
      }
      if who == S1 {
        s1Preview := None;
      } else {
        s2Preview := None;
      }
      phase := RecordOf(who);
      recordingFor := Some(who);
    }

    /** "Re-record Speaker k": shown in k's review phase, disabled while recording; keeps the preview. */
    method ReRecord(who: Speaker)
      requires Valid()
      modifies this`phase, this`recordingFor
      ensures Valid()
      ensures old(phase) == ReviewOf(who) && PreviewOf(who).Some? && old(recordingFor).None? ==>
                phase == RecordOf(who) && recordingFor == Some(who)
      ensures !(old(phase) == ReviewOf(who) && PreviewOf(who).Some? && old(recordingFor).None?) ==>
                phase == old(phase) && recordingFor == old(recordingFor)
    {
      if phase != ReviewOf(who) || PreviewOf(who).None? || recordingFor.Some? {
        return;
      }
      phase := RecordOf(who);
      recordingFor := Some(who);
    }

    /**
     * The end of a capture window, for the speaker being recorded: store the
     * print and go to review, or report insufficient audio and go back to the
     * prompt. The phase is not consulted: a cancel during the window is
     * overridden when the window closes.
     */
    method CompleteRecording(frames: seq<Frame>) returns (insufficientAudio: bool)
      requires Valid() && recordingFor.Some? && SameDimension(frames)
      modifies this`phase, this`recordingFor, this`s1Print, this`s2Print, this`s1Preview, this`s2Preview
      ensures Valid() && recordingFor == None
      ensures insufficientAudio <==> forall k | 0 <= k < |frames| :: !Accepts(frames[k])
      ensures var who := old(recordingFor).value;
              (insufficientAudio ==>
                 phase == PromptOf(who) &&
                 s1Print == old(s1Print) && s2Print == old(s2Print) &&
                 s1Preview == old(s1Preview) && s2Preview == old(s2Preview)) &&
              (!insufficientAudio ==>
                 phase == ReviewOf(who) && CoversWidth(Accepted(frames)) &&
                 PrintOf(who) == Some(Mean(Accepted(frames))) && PreviewOf(who) == PrintOf(who) &&
                 (who == S1 ==> s2Print == old(s2Print) && s2Preview == old(s2Preview)) &&
                 (who == S2 ==> s1Print == old(s1Print) && s1Preview == old(s1Preview)))
    {
      var who := recordingFor.value;
      var mfcc := RecordCalibration(who, frames);
      recordingFor := None;
      insufficientAudio := mfcc.None?;
      if insufficientAudio {
        phase := PromptOf(who);
      } else {
        phase := ReviewOf(who);
      }
    }

    /** "Looks good -> Next (Speaker 2)": from speaker one's review to speaker two's prompt. */
    method NextSpeaker()
      requires Valid()
      modifies this`phase
      ensures Valid()
      ensures phase == if old(phase) == S1Review then S2Prompt else old(phase)
    {
      if phase == S1Review && s1Preview.Some? {
        phase := S2Prompt;
      }
    }

    /**
     * "Finish Calibration -> Start Conversation" (startLive): with the
     * microphone available, from speaker two's review into live mode. The
     * window, the noise floor and the prints carry over.
     */
    method StartLive(micOk: bool)
      requires Valid()
      modifies this`phase, this`listening
      ensures Valid()
      ensures old(phase) == S2Review && micOk ==> phase == Live && listening
      ensures !(old(phase) == S2Review && micOk) ==> phase == old(phase) && listening == old(listening)
    {
      if phase == S2Review && s2Preview.Some? && micOk {
        listening := true;
        phase := Live;
      }
    }

    /**
     * stopListening (Cancel / Stop Listening): back to idle with an empty
     * window and no active speaker. Voiceprints, previews, the noise floor and
     * the last confirmed speaker are kept, so a second call changes nothing.
     */
    method StopListening()
      requires Valid()
      modifies this`listening, this`interim, this`activeSpeaker, this`lastNonNullSpeaker
      modifies this`speakerWindow, this`phase
      ensures Valid()
      ensures Snapshot() == Stopped(old(Snapshot()))
    {
      listening := false;
      interim := "";
      SetActiveSpeaker(None);
      speakerWindow := [];
      phase := Idle;
    }

    /** The recogniser's onend. */
    method OnRecognitionEnd()
      modifies this`listening, this`interim
      ensures !listening && interim == ""
    {
      listening := false;
      interim := "";
    }
  }

  /**
   * Calibrating on five copies of the frame [1, 0, 0] yields the print
   * [1, 0, 0]; scored against that print alone, the same frame has similarity
   * 1 (given sqrt(1) = 1) and candidate s1.
   */
  lemma CalibrationRoundTrip(sqrt: real -> real, rms: real)
    requires sqrt(1.0) == 1.0 && rms > CalibMinRms
    ensures var f := Frame(Some([1.0, 0.0, 0.0]), Some(rms));
            CoversWidth(Accepted(seq(5, _ => f))) &&
            Mean(Accepted(seq(5, _ => f))) == [1.0, 0.0, 0.0] &&
            Cosine([1.0, 0.0, 0.0], [1.0, 0.0, 0.0], sqrt) == 1.0 &&
            Candidate(Score([1.0, 0.0, 0.0], Some([1.0, 0.0, 0.0]), sqrt), None) == Some(S1)
  {
    var v := [1.0, 0.0, 0.0];
    CalibrateOnCopies(Frame(Some(v), Some(rms)), 5);
    assert Dot(v, v, 3) == 1.0;
  }

  /** Frames held below VAD_MIN clear the active speaker at once, whatever the floor. */
  lemma QuietFrameIsSilence(floor: real, rms: real)
    requires rms < VadMin
    ensures rms < VadThreshold(NoiseUpdate(floor, rms))
  {
  }

  /** A window split evenly between the two speakers (say 3/3 of 6) smooths to none. */
  lemma TieIsNone(w: seq<Speaker>)
    requires CountLabel(w, S1) == CountLabel(w, S2)
    ensures Majority(w) == None
  {
    CountsPartition(w);
  }
}
