/**
 * The conversation screen: the message list, the coaching switch, and the
 * decision whether to ask the coaching service for a nudge after a message
 * (rate limit, lull, at least two human turns, at least two flags).
 */
module App {
  import opened Wrappers
  import opened Labels
  import opened Coach

  /** Seconds between coach messages. */
  const MinCoachGap: real := 30.0
  /** Seconds of lull before the coach speaks. */
  const PauseBeforeCoach: real := 1.0
  /** Only the last twenty human messages are sent as turns. */
  const TurnLimit: nat := 20
  const MinTurns: nat := 2
  const MinFlags: nat := 2

  const IntroText: string :=
    "Hi! I\U{2019}ll listen quietly and occasionally offer a short nudge when it could help you both feel heard."

  /** `{ sender: 's1'|'s2'|'bot', text, ts }`, `ts` in seconds. */
  datatype Message = Message(sender: Sender, text: string, ts: real)

  /** The display names sent along with every request. */
  const SpeakerLabels: map<Speaker, string> := map[S1 := "Speaker 1", S2 := "Speaker 2"]

  /** The body posted to the coaching service, with the time the decision was taken. */
  datatype CoachRequest = CoachRequest(turns: seq<Turn>, flags: seq<Flag>, speakerLabels: map<Speaker, string>, decidedAt: real)

  /** The service's answer: `should_intervene` and an optional `message`. */
  datatype CoachReply = CoachReply(shouldIntervene: bool, message: Option<string>)

  function TurnOf(m: Message): (t: Turn) {
    Turn(m.sender, m.text, m.ts)
  }

  /** The s1/s2 messages as turns, in order; coach messages are dropped. */
  function HumanTurns(msgs: seq<Message>): (r: seq<Turn>)
    ensures |r| <= |msgs|
    ensures forall t | t in r :: t.speaker.Human?
  {
    if msgs == [] then []
    else (if msgs[0].sender.Human? then [TurnOf(msgs[0])] else []) + HumanTurns(msgs[1..])
  }

  lemma {:induction false} HumanTurnsAppend(msgs: seq<Message>, m: Message)
    ensures HumanTurns(msgs + [m]) == HumanTurns(msgs) + (if m.sender.Human? then [TurnOf(m)] else [])
  {
    if msgs != [] {
      assert (msgs + [m])[1..] == msgs[1..] + [m];
      HumanTurnsAppend(msgs[1..], m);
    }
  }

  /** The turns maybeCoach builds: the last twenty human messages. */
  function TurnsOf(msgs: seq<Message>): (turns: seq<Turn>)
    ensures |turns| <= TurnLimit && |turns| <= |msgs|
    ensures |turns| == (if |HumanTurns(msgs)| < TurnLimit then |HumanTurns(msgs)| else TurnLimit)
    ensures turns == HumanTurns(msgs)[|HumanTurns(msgs)| - |turns|..]
    ensures forall t | t in turns :: t.speaker.Human?
  {
    var h := HumanTurns(msgs);
    var r := TakeLast(h, TurnLimit);
    assert forall t | t in r :: t in h;
    r
  }

  /** A coach message never changes the turns the decision is based on. */
  lemma BotMessagesIgnored(msgs: seq<Message>, text: string, ts: real)
    ensures TurnsOf(msgs + [Message(Bot, text, ts)]) == TurnsOf(msgs)
  {
    HumanTurnsAppend(msgs, Message(Bot, text, ts));
  }

  /**
   * maybeCoach's guard chain at time `now`: coaching on, at least 30 s since
   * the last intervention, a last message at least 1 s old, two or more
   * human turns among the last twenty, two or more flags.
   */
  function CoachDecision(enabled: bool, lastCoachAt: real, msgs: seq<Message>, now: real): (r: Option<CoachRequest>)
    ensures r.Some? ==>
              r.value.decidedAt == now && r.value.turns == TurnsOf(msgs) &&
              r.value.speakerLabels == SpeakerLabels &&
              MinTurns <= |r.value.turns| <= TurnLimit &&
              r.value.flags == Flags(r.value.turns, now, DefaultWindowSec) &&
              MinFlags <= |r.value.flags| <= 3
  {
    if !enabled then None
    else if now - lastCoachAt < MinCoachGap then None
    else if msgs == [] then None
    else if now - msgs[|msgs| - 1].ts < PauseBeforeCoach then None
    else
      var turns := TurnsOf(msgs);
      if |turns| < MinTurns then None
      else
        var flags := Flags(turns, now, DefaultWindowSec);
        if |flags| < MinFlags then None
        else Some(CoachRequest(turns, flags, SpeakerLabels, now))
  }

  /** The coach is asked exactly when every guard passes. */
  lemma CoachDecisionIff(enabled: bool, lastCoachAt: real, msgs: seq<Message>, now: real)
    ensures CoachDecision(enabled, lastCoachAt, msgs, now).Some? <==>
              enabled && now - lastCoachAt >= MinCoachGap && msgs != [] &&
              now - msgs[|msgs| - 1].ts >= PauseBeforeCoach &&
              |TurnsOf(msgs)| >= MinTurns &&
              |Flags(TurnsOf(msgs), now, DefaultWindowSec)| >= MinFlags
  {
  }

  /** Within 30 s of the last intervention the coach is never asked. */
  lemma RateLimited(enabled: bool, lastCoachAt: real, msgs: seq<Message>, now: real)
    requires now - lastCoachAt < MinCoachGap
    ensures CoachDecision(enabled, lastCoachAt, msgs, now) == None
  {
  }

  /** A message less than a second old blocks the request. */
  lemma FreshMessageNeverCoaches(enabled: bool, lastCoachAt: real, msgs: seq<Message>, m: Message, now: real)
    requires now - m.ts < PauseBeforeCoach
    ensures CoachDecision(enabled, lastCoachAt, msgs + [m], now) == None
  {
    assert (msgs + [m])[|msgs + [m]| - 1] == m;
  }

  /** Fewer than two flags, as from a single flagged signal, never reach the service. */
  lemma OneSignalIsNotEnough(enabled: bool, lastCoachAt: real, msgs: seq<Message>, now: real)
    requires |Flags(TurnsOf(msgs), now, DefaultWindowSec)| < MinFlags
    ensures CoachDecision(enabled, lastCoachAt, msgs, now) == None
  {
  }

  /** The service asked for an intervention and supplied a non-empty message. */
  predicate Intervenes(reply: Option<CoachReply>) {
    reply.Some? && reply.value.shouldIntervene && reply.value.message.Some? && reply.value.message.value != []
  }

  class AppState {
    var messages: seq<Message>
    var coachingEnabled: bool
    /** `lastCoachAtRef.current`: when the last intervention was decided. */
    var lastCoachAt: real

    constructor ()
      ensures messages == [] && coachingEnabled && lastCoachAt == 0.0
    {
      messages := [];
      coachingEnabled := true;
      lastCoachAt := 0.0;
    }

    /** The mount effect: the list becomes the single intro message. */
    method Mount(now: real)
      modifies this`messages
      ensures messages == [Message(Bot, IntroText, now)]
    {
      messages := [Message(Bot, IntroText, now)];
    }

    /** The "Coaching enabled" checkbox. */
    method SetCoachingEnabled(enabled: bool)
      modifies this`coachingEnabled
      ensures coachingEnabled == enabled
    {
      coachingEnabled := enabled;
    }

    /**
     * maybeCoach up to the request: the guard chain, the turns and the flags,
     * taken statement by statement as the handler runs them (flags through
     * ComputeFlags); it is the imperative mirror of CoachDecision, which is
     * its specification. The request itself (and the reply) is the
     * environment's part.
     */
    method MaybeCoach(allMsgs: seq<Message>, now: real) returns (req: Option<CoachRequest>)
      ensures req == CoachDecision(coachingEnabled, lastCoachAt, allMsgs, now)
    {
      if !coachingEnabled {
        return None;
      }
      if now - lastCoachAt < MinCoachGap {
        return None;
      }
      if |allMsgs| == 0 {
        return None;
      }
      var last := allMsgs[|allMsgs| - 1];
      var lull := now - last.ts;
      if lull < PauseBeforeCoach {
        return None;
      }
      var turns := TurnsOf(allMsgs);
      if |turns| < MinTurns {
        return None;
      }
      var flags := ComputeFlags(turns, now, DefaultWindowSec);
      if |flags| < MinFlags {
        return None;
      }
      req := Some(CoachRequest(turns, flags, SpeakerLabels, now));
    }

    /**
     * handleSend: the message is stamped `sentAt` and appended, then maybeCoach
     * runs on the new list at `decideAt`. When the two clock reads are less
     * than a second apart the lull guard always fails on the message just
     * added, so no request is ever made from here.
     */
    method HandleSend(text: string, speaker: Speaker, sentAt: real, decideAt: real) returns (req: Option<CoachRequest>)
      modifies this`messages
      ensures messages == old(messages) + [Message(Human(speaker), text, sentAt)]
      ensures req == CoachDecision(coachingEnabled, lastCoachAt, messages, decideAt)
      ensures decideAt - sentAt < PauseBeforeCoach ==> req == None
    {
      var msg := Message(Human(speaker), text, sentAt);
      messages := messages + [msg];
      req := MaybeCoach(messages, decideAt);
      if decideAt - sentAt < PauseBeforeCoach {
        FreshMessageNeverCoaches(coachingEnabled, lastCoachAt, old(messages), msg, decideAt);
      }
    }

    /**
     * The same decision taken on the current list once the conversation has
     * paused: the evaluation handleSend never reaches.
     */
    method CoachAfterLull(now: real) returns (req: Option<CoachRequest>)
      ensures req == CoachDecision(coachingEnabled, lastCoachAt, messages, now)
      ensures req.Some? <==>
                coachingEnabled && now - lastCoachAt >= MinCoachGap && messages != [] &&
                now - messages[|messages| - 1].ts >= PauseBeforeCoach &&
                |TurnsOf(messages)| >= MinTurns &&
                |Flags(TurnsOf(messages), now, DefaultWindowSec)| >= MinFlags
    {
      req := MaybeCoach(messages, now);
      CoachDecisionIff(coachingEnabled, lastCoachAt, messages, now);
    }

    /**
     * The reply to a request: an intervention with a message stamps the
     * decision time into lastCoachAt and appends the coach's message;
     * anything else (no intervention, no message, a failed request) changes nothing.
     */
    method ApplyReply(req: CoachRequest, reply: Option<CoachReply>, replyAt: real)
      modifies this`messages, this`lastCoachAt
      ensures Intervenes(reply) ==>
                lastCoachAt == req.decidedAt &&
                messages == old(messages) + [Message(Bot, reply.value.message.value, replyAt)]
      ensures !Intervenes(reply) ==> lastCoachAt == old(lastCoachAt) && messages == old(messages)
    {
      if Intervenes(reply) {
        lastCoachAt := req.decidedAt;
        messages := messages + [Message(Bot, reply.value.message.value, replyAt)];
      }
    }
  }
}
