/** The chat widget's transcript state: the message list and the `loading`
    flag, changed by the start and the completion of `handleUserMessage` and
    by `clearChat`. A call's start and its completion are separate events, so
    a `clearChat` or another call can happen while a reply is pending. */
module Transcript {
  import opened ChatBot

  datatype Session = Session(messages: seq<Message>, loading: bool)

  const Greeting := Message(Bot, "¡Hola! Selecciona una pregunta para empezar 🚀", false)
  const Cleared := Message(Bot, "Chat limpiado 🧹. Selecciona otra pregunta 👇", false)

  /** The state the widget mounts with. */
  const Initial := Session([Greeting], false)

  /** A user message as it enters the transcript: the text as typed, not lowered. */
  function UserMessage(msg: string): Message {
    Message(User, msg, false)
  }

  /** `setLoading(true)` at the start of a call; the transcript is not touched yet. */
  function BeginCall(s: Session): (r: Session)
    ensures r.loading
    ensures r.messages == s.messages
  {
    Session(s.messages, true)
  }

  /** The completion of a call: the functional update appends the user message and
      the reply to whatever transcript is current, then `loading` is reset. The
      handler itself has no guard, so this applies whatever `loading` was. */
  function FinishCall(s: Session, msg: string, outcome: FetchOutcome): (r: Session)
    ensures |r.messages| == |s.messages| + 2
    ensures r.messages[..|s.messages|] == s.messages
    ensures r.messages[|s.messages|] == UserMessage(msg)
    ensures r.messages[|s.messages| + 1] == HandleMessage(msg, outcome).reply
    ensures r.messages[|s.messages| + 1].from == Bot
    ensures !r.loading
  {
    Session(s.messages + [UserMessage(msg), HandleMessage(msg, outcome).reply], false)
  }

  /** `clearChat`: the transcript becomes the single cleared greeting whatever it held;
      `loading` is left alone. */
  function ClearChat(s: Session): (r: Session)
    ensures |r.messages| == 1
    ensures r.messages[0].from == Bot && r.messages[0] == Cleared
    ensures r.loading == s.loading
  {
    Session([Cleared], s.loading)
  }

  /** One uninterrupted call: start, then completion with nothing in between. */
  function HandleUserMessage(s: Session, msg: string, outcome: FetchOutcome): (r: Session)
    ensures r.messages == s.messages + [UserMessage(msg), HandleMessage(msg, outcome).reply]
    ensures !r.loading
  {
    FinishCall(BeginCall(s), msg, outcome)
  }

  // ---------------------------------------------------------------------------
  // Traces of events
  // ---------------------------------------------------------------------------

  datatype Event = Begin | Finish(msg: string, outcome: FetchOutcome) | Clear

  function Step(s: Session, e: Event): Session {
    match e
    case Begin => BeginCall(s)
    case Finish(msg, outcome) => FinishCall(s, msg, outcome)
    case Clear => ClearChat(s)
  }

  /** The state after the events of `evs`, oldest first. */
  function Run(s: Session, evs: seq<Event>): Session
    decreases |evs|
  {
    if |evs| == 0 then s else Step(Run(s, evs[..|evs| - 1]), evs[|evs| - 1])
  }

  predicate HasClear(evs: seq<Event>) {
    exists i :: 0 <= i < |evs| && evs[i].Clear?
  }

  /** Completions after the last clear (all of them when there is none). */
  function FinishesSinceClear(evs: seq<Event>): nat
    decreases |evs|
  {
    if |evs| == 0 then 0
    else match evs[|evs| - 1]
      case Clear => 0
      case Finish(_, _) => FinishesSinceClear(evs[..|evs| - 1]) + 1
      case Begin => FinishesSinceClear(evs[..|evs| - 1])
  }

  /** A transcript as the widget keeps it: a bot message first, then pairs of a
      plain user message followed by a bot message. */
  ghost predicate Paired(ms: seq<Message>) {
    && |ms| % 2 == 1
    && ms[0].from == Bot
    && (forall k :: 1 <= k < |ms| ==> (ms[k].from == User <==> k % 2 == 1))
    && (forall k :: 1 <= k < |ms| && k % 2 == 1 ==> !ms[k].isHtml)
  }

  lemma StepKeepsPaired(s: Session, e: Event)
    requires Paired(s.messages)
    ensures Paired(Step(s, e).messages)
  {
    match e
    case Begin =>
    case Clear =>
    case Finish(msg, outcome) =>
      var reply := HandleMessage(msg, outcome).reply;
      AppendPairKeepsPaired(s.messages, UserMessage(msg), reply);
  }

  /** Appending a plain user message and a bot message keeps the transcript paired. */
  lemma AppendPairKeepsPaired(ms: seq<Message>, user: Message, bot: Message)
    requires Paired(ms) && user.from == User && !user.isHtml && bot.from == Bot
    ensures Paired(ms + [user, bot])
  {
    var next := ms + [user, bot];
    assert next[|ms|] == user && next[|ms| + 1] == bot;
    forall k | 1 <= k < |ms| ensures next[k] == ms[k] { }
  }

  /** Every reachable transcript is a bot message followed by user/bot pairs,
      however starts, completions and clears interleave. */
  lemma {:induction false} RunKeepsPaired(evs: seq<Event>)
    ensures Paired(Run(Initial, evs).messages)
    decreases |evs|
  {
    if |evs| > 0 {
      RunKeepsPaired(evs[..|evs| - 1]);
      StepKeepsPaired(Run(Initial, evs[..|evs| - 1]), evs[|evs| - 1]);
    }
  }

  /** The transcript length counts the completions since the last clear: two
      messages for each, on top of the single cleared greeting (or of the
      starting transcript when nothing was cleared). */
  lemma {:induction false} RunLength(s: Session, evs: seq<Event>)
    ensures |Run(s, evs).messages|
         == (if HasClear(evs) then 1 else |s.messages|) + 2 * FinishesSinceClear(evs)
    decreases |evs|
  {
    if |evs| > 0 {
      var init := evs[..|evs| - 1];
      RunLength(s, init);
      StepLength(Run(s, init), evs[|evs| - 1]);
      HasClearLast(evs);
    }
  }

  /** A trace has a clear exactly when its last event is one or the earlier events have one. */
  lemma HasClearLast(evs: seq<Event>)
    requires |evs| > 0
    ensures HasClear(evs) <==> HasClear(evs[..|evs| - 1]) || evs[|evs| - 1].Clear?
  {
    var init := evs[..|evs| - 1];
    if HasClear(init) {
      var i :| 0 <= i < |init| && init[i].Clear?;
      assert evs[i] == init[i];
    }
    if HasClear(evs) && !evs[|evs| - 1].Clear? {
      var i :| 0 <= i < |evs| && evs[i].Clear?;
      assert init[i] == evs[i];
    }
  }

  /** One step adds two messages for a completion, none for a start, and leaves one
      after a clear. */
  lemma StepLength(s: Session, e: Event)
    ensures |Step(s, e).messages| == match e
      case Begin => |s.messages|
      case Finish(_, _) => |s.messages| + 2
      case Clear => 1
  {
  }

  /** Without a clear the transcript only grows: earlier messages stay, unchanged
      and in order. */
  lemma {:induction false} AppendOnlyWithoutClear(s: Session, evs: seq<Event>)
    requires !HasClear(evs)
    ensures |s.messages| <= |Run(s, evs).messages|
    ensures Run(s, evs).messages[..|s.messages|] == s.messages
    decreases |evs|
  {
    if |evs| > 0 {
      var init := evs[..|evs| - 1];
      assert !HasClear(init);
      AppendOnlyWithoutClear(s, init);
      assert !evs[|evs| - 1].Clear?;
      var before := Run(s, init).messages;
      var after := Run(s, evs).messages;
      assert after[..|before|] == before;
      assert after[..|s.messages|] == after[..|before|][..|s.messages|];
    }
  }

  /** A reply that lands after `clearChat` is appended to the cleared transcript
      rather than dropped. */
  lemma LateReplyAfterClear(s: Session, msg: string, outcome: FetchOutcome)
    ensures Run(s, [Begin, Clear, Finish(msg, outcome)]).messages
         == [Cleared, UserMessage(msg), HandleMessage(msg, outcome).reply]
    ensures !Run(s, [Begin, Clear, Finish(msg, outcome)]).loading
  {
    var evs := [Begin, Clear, Finish(msg, outcome)];
    assert evs[..2] == [Begin, Clear];
    assert evs[..2][..1] == [Begin];
  }

  /** Running one more event is one more step. */
  lemma RunSnoc(s: Session, evs: seq<Event>, e: Event)
    ensures Run(s, evs + [e]) == Step(Run(s, evs), e)
  {
    assert (evs + [e])[..|evs|] == evs;
  }

  /** Two starts then two completions run as the composed steps. */
  lemma OverlappingRun(s: Session, m1: string, o1: FetchOutcome, m2: string, o2: FetchOutcome)
    ensures Run(s, [Begin, Begin, Finish(m2, o2)]) == FinishCall(BeginCall(BeginCall(s)), m2, o2)
    ensures Run(s, [Begin, Begin, Finish(m2, o2), Finish(m1, o1)])
         == FinishCall(FinishCall(BeginCall(BeginCall(s)), m2, o2), m1, o1)
  {
    var e1 := [Begin];
    var e2 := e1 + [Begin];
    var e3 := e2 + [Finish(m2, o2)];
    var e4 := e3 + [Finish(m1, o1)];
    RunSnoc(s, [], Begin);
    assert [] + [Begin] == e1;
    RunSnoc(s, e1, Begin);
    RunSnoc(s, e2, Finish(m2, o2));
    RunSnoc(s, e3, Finish(m1, o1));
    assert e3 == [Begin, Begin, Finish(m2, o2)];
    assert e4 == [Begin, Begin, Finish(m2, o2), Finish(m1, o1)];
  }

  /** Two completions in a row append their pairs in completion order. */
  lemma TwoCompletions(x: Session, m1: string, o1: FetchOutcome, m2: string, o2: FetchOutcome)
    ensures FinishCall(FinishCall(x, m2, o2), m1, o1).messages
         == x.messages + [UserMessage(m2), HandleMessage(m2, o2).reply,
                          UserMessage(m1), HandleMessage(m1, o1).reply]
  {
    var pair2 := [UserMessage(m2), HandleMessage(m2, o2).reply];
    var pair1 := [UserMessage(m1), HandleMessage(m1, o1).reply];
    assert FinishCall(FinishCall(x, m2, o2), m1, o1).messages == (x.messages + pair2) + pair1;
    assert (x.messages + pair2) + pair1 == x.messages + (pair2 + pair1);
  }

  /** Two overlapping calls: each completion appends its own pair intact, in
      completion order, and the first completion already clears `loading`
      while the second call is still pending. */
  lemma OverlappingCalls(s: Session, m1: string, o1: FetchOutcome, m2: string, o2: FetchOutcome)
    ensures var mid := Run(s, [Begin, Begin, Finish(m2, o2)]);
      !mid.loading
    ensures Run(s, [Begin, Begin, Finish(m2, o2), Finish(m1, o1)]).messages
         == s.messages + [UserMessage(m2), HandleMessage(m2, o2).reply,
                          UserMessage(m1), HandleMessage(m1, o1).reply]
  {
    OverlappingRun(s, m1, o1, m2, o2);
    TwoCompletions(BeginCall(BeginCall(s)), m1, o1, m2, o2);
  }
}
