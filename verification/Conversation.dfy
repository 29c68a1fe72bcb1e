/** What the provider is told (src/agent/agent-loop.ts): the conversation a loop leaves behind, message by
    message, in terms of what was streamed and what the tools returned. */
module Conversation {
  import opened Options
  import opened AgentLoop

  // ----- what was streamed

  datatype Kind = Texts | Calls | Stops

  predicate IsOf(kind: Kind, e: StreamEvent) {
    match kind
    case Texts => e.TextDelta?
    case Calls => e.ToolUseEnd?
    case Stops => e.MessageStop?
  }

  /** The positions of the events of a kind, in order. */
  ghost predicate Positions(events: seq<StreamEvent>, kind: Kind, at: seq<nat>) {
    && (forall i, j :: 0 <= i < j < |at| ==> at[i] < at[j])
    && (forall j :: 0 <= j < |at| ==> at[j] < |events| && IsOf(kind, events[at[j]]))
    && (forall i: nat :: i < |events| && IsOf(kind, events[i]) ==> i in at)
  }

  /** The texts are those of the text deltas of the stream, in order. */
  ghost predicate Streams(events: seq<StreamEvent>, texts: seq<string>, at: seq<nat>) {
    && Positions(events, Texts, at) && |texts| == |at|
    && forall j :: 0 <= j < |at| ==> events[at[j]] == TextDelta(texts[j])
  }

  /** The calls are the completed tool uses of the stream, in order. */
  ghost predicate Requests(events: seq<StreamEvent>, calls: seq<ToolCall>, at: seq<nat>) {
    && Positions(events, Calls, at) && |calls| == |at|
    && forall j :: 0 <= j < |at| ==> events[at[j]] == ToolUseEnd(calls[j])
  }

  lemma PositionsGrow(events: seq<StreamEvent>, e: StreamEvent, kind: Kind, at: seq<nat>)
    requires Positions(events, kind, at)
    ensures if IsOf(kind, e) then Positions(events + [e], kind, at + [|events|]) else Positions(events + [e], kind, at)
  {
    var all := events + [e];
    assert forall i :: 0 <= i < |events| ==> all[i] == events[i];
    if IsOf(kind, e) { LastPosition(events, e, kind, at); }
  }

  lemma LastPosition(events: seq<StreamEvent>, e: StreamEvent, kind: Kind, at: seq<nat>)
    requires Positions(events, kind, at) && IsOf(kind, e)
    ensures Positions(events + [e], kind, at + [|events|])
  {
    var n, all, more := |events|, events + [e], at + [|events|];
    assert more[|at|] == n && all[n] == e;
    assert forall j :: 0 <= j < |at| ==> more[j] == at[j] && all[at[j]] == events[at[j]];
    forall i: nat | i < n + 1 && IsOf(kind, all[i])
      ensures i in more
    {
      if i < n {
        assert IsOf(kind, events[i]);
        assert i in at;
      }
    }
  }

  /** One text after the other. */
  function Joined(texts: seq<string>): string {
    if texts == [] then "" else texts[0] + Joined(texts[1..])
  }

  lemma {:induction false} ConcatJoins(texts: seq<string>)
    ensures Concat(texts) == Joined(texts)
  {
    if |texts| > 1 {
      var n := |texts| - 1;
      ConcatJoins(texts[..n]);
      JoinedLast(texts[..n], texts[n]);
      assert texts == texts[..n] + [texts[n]];
    } else if |texts| == 1 {
      assert texts[..0] == [] && texts[1..] == [];
    }
  }

  lemma {:induction false} JoinedLast(texts: seq<string>, last: string)
    ensures Joined(texts + [last]) == Joined(texts) + last
  {
    if texts == [] {
      assert (texts + [last])[1..] == [];
    } else {
      JoinedLast(texts[1..], last);
      assert (texts + [last])[1..] == texts[1..] + [last];
    }
  }

  lemma StreamsGrow(events: seq<StreamEvent>, e: StreamEvent, found: seq<string>, at: seq<nat>)
    requires Streams(events, found, at)
    ensures if e.TextDelta? then Streams(events + [e], found + [e.text], at + [|events|]) else Streams(events + [e], found, at)
  {
    PositionsGrow(events, e, Texts, at);
    forall j | 0 <= j < |at|
      ensures (events + [e])[at[j]] == TextDelta(found[j])
    {
      assert events[at[j]] == TextDelta(found[j]);
    }
  }

  lemma {:induction false} TextsAreStreamed(events: seq<StreamEvent>) returns (at: seq<nat>)
    ensures Streams(events, TextsOf(events), at)
  {
    at := [];
    if events != [] {
      var n := |events| - 1;
      at := TextsAreStreamed(events[..n]);
      StreamsGrow(events[..n], events[n], TextsOf(events[..n]), at);
      assert events == events[..n] + [events[n]];
      if events[n].TextDelta? { at := at + [n]; }
    }
  }

  lemma RequestsGrow(events: seq<StreamEvent>, e: StreamEvent, found: seq<ToolCall>, at: seq<nat>)
    requires Requests(events, found, at)
    ensures if e.ToolUseEnd? then Requests(events + [e], found + [e.call], at + [|events|]) else Requests(events + [e], found, at)
  {
    PositionsGrow(events, e, Calls, at);
    forall j | 0 <= j < |at|
      ensures (events + [e])[at[j]] == ToolUseEnd(found[j])
    {
      assert events[at[j]] == ToolUseEnd(found[j]);
    }
  }

  lemma {:induction false} CallsAreRequested(events: seq<StreamEvent>) returns (at: seq<nat>)
    ensures Requests(events, CallsOf(events), at)
  {
    at := [];
    if events != [] {
      var n := |events| - 1;
      at := CallsAreRequested(events[..n]);
      RequestsGrow(events[..n], events[n], CallsOf(events[..n]), at);
      assert events == events[..n] + [events[n]];
      if events[n].ToolUseEnd? { at := at + [n]; }
    }
  }

  /** The usage is that of the last stop message, and empty without one. */
  ghost predicate Reports(events: seq<StreamEvent>, usage: Usage, at: seq<nat>) {
    && Positions(events, Stops, at)
    && if |at| == 0 then usage == Usage(0, 0, None, None) else events[at[|at| - 1]] == MessageStop(usage)
  }

  lemma ReportsGrow(events: seq<StreamEvent>, e: StreamEvent, usage: Usage, at: seq<nat>)
    requires Reports(events, usage, at)
    ensures if e.MessageStop? then Reports(events + [e], e.usage, at + [|events|]) else Reports(events + [e], usage, at)
  {
    PositionsGrow(events, e, Stops, at);
    if |at| > 0 { assert (events + [e])[at[|at| - 1]] == events[at[|at| - 1]]; }
  }

  lemma {:induction false} UsageIsReported(events: seq<StreamEvent>) returns (at: seq<nat>)
    ensures Reports(events, UsageOf(events), at)
  {
    at := [];
    if events != [] {
      var n := |events| - 1;
      at := UsageIsReported(events[..n]);
      ReportsGrow(events[..n], events[n], UsageOf(events[..n]), at);
      assert events == events[..n] + [events[n]];
      if events[n].MessageStop? { at := at + [n]; }
    }
  }

  // ----- what is sent back

  /** The answer to a call: what the tool returned, or an error exactly when the tool is unknown or
      threw. */
  ghost predicate Answers(env: Environment, turn: nat, call: ToolCall, m: Message) {
    if call.name !in env.tools then m == ToolResultMessage(call.id, "Error: Unknown tool '" + call.name + "'.", true)
    else match env.runTool(turn, call)
      case Output(text) => m == ToolResultMessage(call.id, text, false)
      case ToolThrew(message) =>
        m == ToolResultMessage(call.id, "Error executing tool '" + call.name + "': " + message, true)
  }

  /** The messages of a turn: without calls the text alone; otherwise the text, if any came, with the
      calls, and then the answer to each of them. */
  ghost predicate Says(env: Environment, turn: nat, texts: seq<string>, calls: seq<ToolCall>, block: seq<Message>) {
    if |calls| == 0 then block == [AssistantText(Joined(texts))]
    else
      && |block| == 1 + |calls|
      && block[0] == AssistantTools(if |texts| == 0 then None else Some(Joined(texts)), calls)
      && forall j :: 0 <= j < |calls| ==> Answers(env, turn, calls[j], block[1 + j])
  }

  /** The turn heard its provider on the messages before it, and says what follows from the answer. */
  ghost predicate TurnSpeaks(env: Environment, turn: nat, history: seq<Message>, block: seq<Message>) {
    var run := env.provider(turn, history);
    && run.error == None
    && exists texts, calls, inTexts, inCalls ::
         Streams(run.events, texts, inTexts) && Requests(run.events, calls, inCalls) && Says(env, turn, texts, calls, block)
  }

  /** Where the messages of the turns begin: `starts[k]` is the position of the first message of turn
      `k`, and the last entry is the length of the conversation. */
  ghost predicate Laid(env: Environment, opening: seq<Message>, messages: seq<Message>, turns: nat, starts: seq<nat>) {
    && |starts| == turns + 1 && starts[0] == |opening| && starts[turns] == |messages|
    && opening <= messages
    && (forall k: nat :: k < turns ==> TurnAt(starts, k, |messages|))
    && forall k: nat :: k < turns ==> SpeaksAt(env, messages, starts, k)
  }

  ghost predicate TurnAt(starts: seq<nat>, k: nat, length: nat)
    requires k + 1 < |starts|
  {
    starts[k] < starts[k + 1] <= length
  }

  ghost predicate SpeaksAt(env: Environment, messages: seq<Message>, starts: seq<nat>, k: nat)
    requires k + 1 < |starts| && TurnAt(starts, k, |messages|)
  {
    TurnSpeaks(env, k, messages[..starts[k]], messages[starts[k]..starts[k + 1]])
  }

  lemma BlockSpeaks(env: Environment, history: seq<Message>, k: nat, it: Iteration)
    requires Faithful(env, history, k, it)
    ensures TurnSpeaks(env, k, history, Block(it))
  {
    var events := env.provider(k, history).events;
    var inTexts := TextsAreStreamed(events);
    var inCalls := CallsAreRequested(events);
    ConcatJoins(it.texts);
    assert Says(env, k, it.texts, it.calls, Block(it));
  }

  lemma {:induction false} TranscriptIsLaid(env: Environment, opening: seq<Message>, iterations: seq<Iteration>) returns (starts: seq<nat>)
    requires AllFaithful(env, opening, iterations)
    ensures Laid(env, opening, opening + Transcript(iterations), |iterations|, starts)
  {
    if iterations == [] {
      starts := [|opening|];
      assert opening + Transcript(iterations) == opening;
    } else {
      var n := |iterations| - 1;
      FrontIsFaithful(env, opening, iterations);
      starts := TranscriptIsLaid(env, opening, iterations[..n]);
      assert FaithfulAt(env, opening, iterations, n);
      TurnIsLaid(env, opening, opening + Transcript(iterations[..n]), iterations[n], n, starts);
      ConcatAssociates(opening, Transcript(iterations[..n]), Block(iterations[n]));
      starts := starts + [|opening + Transcript(iterations)|];
    }
  }

  lemma TurnIsLaid(env: Environment, opening: seq<Message>, history: seq<Message>, it: Iteration, n: nat, starts: seq<nat>)
    requires Laid(env, opening, history, n, starts) && Faithful(env, history, n, it)
    ensures Laid(env, opening, history + Block(it), n + 1, starts + [|history + Block(it)|])
  {
    BlockSpeaks(env, history, n, it);
    LaidGrows(env, opening, history, Block(it), n, starts);
  }

  lemma LaidGrows(env: Environment, opening: seq<Message>, history: seq<Message>, block: seq<Message>, n: nat, before: seq<nat>)
    requires Laid(env, opening, history, n, before) && block != [] && TurnSpeaks(env, n, history, block)
    ensures Laid(env, opening, history + block, n + 1, before + [|history + block|])
  {
    var all, starts := history + block, before + [|history + block|];
    forall k: nat | k < n + 1
      ensures TurnAt(starts, k, |all|)
    {
      if k < n { assert TurnAt(before, k, |history|); }
    }
    forall k: nat | k < n + 1
      ensures SpeaksAt(env, all, starts, k)
    {
      if k < n {
        assert TurnAt(before, k, |history|) && SpeaksAt(env, history, before, k);
        assert all[..starts[k]] == history[..starts[k]];
        assert all[starts[k]..starts[k + 1]] == history[starts[k]..starts[k + 1]];
      } else {
        assert all[..starts[n]] == history && all[starts[n]..starts[n + 1]] == block;
      }
    }
  }

  /** However the loop ends: its conversation is the opening followed by the messages of the recorded
      turns, and each turn says what its provider streamed and what its tools returned. */
  lemma ProviderIsToldTheResults(env: Environment, opening: seq<Message>, maxIterations: int, r: LoopResult, events: seq<GovernorEvent>)
      returns (starts: seq<nat>)
    requires Returned(env, opening, maxIterations, r, events)
    ensures Laid(env, opening, r.finalMessages, |r.iterations|, starts)
  {
    starts := TranscriptIsLaid(env, opening, r.iterations);
  }

  /** What the provider asked for in a turn with calls, and the answers that stand right after it. */
  lemma EachCallIsAnswered(env: Environment, opening: seq<Message>, messages: seq<Message>, turns: nat, starts: seq<nat>, k: nat)
      returns (calls: seq<ToolCall>, at: seq<nat>)
    requires Laid(env, opening, messages, turns, starts) && k < turns && TurnAt(starts, k, |messages|)
    requires messages[starts[k]].AssistantTools?
    ensures calls == messages[starts[k]].calls && Requests(env.provider(k, messages[..starts[k]]).events, calls, at)
    ensures starts[k + 1] == starts[k] + 1 + |calls| <= |messages|
    ensures forall j :: 0 <= j < |calls| ==> Answers(env, k, calls[j], messages[starts[k] + 1 + j])
  {
    assert SpeaksAt(env, messages, starts, k);
    var block := messages[starts[k]..starts[k + 1]];
    var events := env.provider(k, messages[..starts[k]]).events;
    var texts, inTexts;
    texts, calls, inTexts, at :|
      Streams(events, texts, inTexts) && Requests(events, calls, at) && Says(env, k, texts, calls, block);
    assert block[0] == messages[starts[k]];
    forall j | 0 <= j < |calls|
      ensures Answers(env, k, calls[j], messages[starts[k] + 1 + j])
    {
      assert block[1 + j] == messages[starts[k] + 1 + j];
    }
  }

  /** The recorded turns tell the same: texts, calls and usage of the stream, and a result per call that
      is what was answered. */
  ghost predicate RecordsTruly(env: Environment, history: seq<Message>, k: nat, it: Iteration) {
    var events := env.provider(k, history).events;
    && it.number == k + 1 && (exists at :: Reports(events, it.usage, at))
    && (exists at :: Streams(events, it.texts, at)) && (exists at :: Requests(events, it.calls, at))
    && |it.results| == |it.calls| && forall j :: 0 <= j < |it.calls| ==> ResultOf(env, k, it.calls[j], it.results[j])
  }

  ghost predicate ResultOf(env: Environment, turn: nat, call: ToolCall, r: ToolResult) {
    r.name == call.name && Answers(env, turn, call, ToolResultMessage(r.toolUseId, r.output, r.isError))
  }

  lemma ExecutedIsResult(env: Environment, turn: nat, call: ToolCall)
    ensures ResultOf(env, turn, call, ExecuteToolCall(env, turn, call))
  {}

  lemma FaithfulRecordsTruly(env: Environment, history: seq<Message>, k: nat, it: Iteration)
    requires Faithful(env, history, k, it)
    ensures RecordsTruly(env, history, k, it)
  {
    var events := env.provider(k, history).events;
    var inTexts := TextsAreStreamed(events);
    var inCalls := CallsAreRequested(events);
    var inStops := UsageIsReported(events);
    assert Streams(events, it.texts, inTexts) && Requests(events, it.calls, inCalls);
    forall j | 0 <= j < |it.calls|
      ensures ResultOf(env, k, it.calls[j], ExecuteToolCall(env, k, it.calls[j]))
    {
      ExecutedIsResult(env, k, it.calls[j]);
    }
  }

  /** The records of every turn are true, and a completed loop answers with the text of the last one. */
  lemma TurnsRecordTruly(env: Environment, opening: seq<Message>, maxIterations: int, r: LoopResult, events: seq<GovernorEvent>)
    requires Returned(env, opening, maxIterations, r, events)
    ensures forall k: nat :: k < |r.iterations| ==>
              RecordsTruly(env, opening + Transcript(r.iterations[..k]), k, r.iterations[k])
    ensures r.status == Completed ==> |r.iterations| > 0 && r.finalText == Joined(r.iterations[|r.iterations| - 1].texts)
  {
    forall k: nat | k < |r.iterations|
      ensures RecordsTruly(env, opening + Transcript(r.iterations[..k]), k, r.iterations[k])
    {
      assert FaithfulAt(env, opening, r.iterations, k);
      FaithfulRecordsTruly(env, opening + Transcript(r.iterations[..k]), k, r.iterations[k]);
    }
    if r.status == Completed { ConcatJoins(r.iterations[|r.iterations| - 1].texts); }
  }
}
