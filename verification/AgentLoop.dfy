/** The agent loop (src/agent/agent-loop.ts): streamed provider turns, tool calls, and a budget
    reservation around every provider call. Provider, tools, governor and abort signal are oracles
    indexed by the turn; progress events and durations are not part of the model. */
module AgentLoop {
  import opened Options

  datatype Usage = Usage(inputTokens: nat, outputTokens: nat, cacheRead: Option<nat>, cacheCreation: Option<nat>)

  datatype ToolCall = ToolCall(id: string, name: string, input: string)

  datatype ToolResult = ToolResult(toolUseId: string, name: string, output: string, isError: bool)

  datatype Message =
    | User(text: string)
    | AssistantText(text: string)
    | AssistantTools(preface: Option<string>, calls: seq<ToolCall>)
    | ToolResultMessage(toolUseId: string, content: string, isError: bool)

  datatype StreamEvent =
    | TextDelta(text: string)
    | ToolUseStart(id: string)
    | ToolUseEnd(call: ToolCall)
    | MessageStop(usage: Usage)
    | ErrorEvent(message: string)

  /** The events of one provider call, and the error that broke the stream, if one did. */
  datatype ProviderRun = ProviderRun(events: seq<StreamEvent>, error: Option<string>)

  datatype ToolRun = Output(text: string) | ToolThrew(message: string)

  datatype ReserveDecision = Granted(reservationId: string) | Refused(reason: string)

  datatype Environment = Environment(
    provider: (nat, seq<Message>) -> ProviderRun,
    tools: set<string>,
    runTool: (nat, ToolCall) -> ToolRun,
    governed: bool,
    reserve: nat -> ReserveDecision,
    aborted: nat -> bool)

  // ----- usage

  function AddOptional(a: Option<nat>, b: Option<nat>): Option<nat> {
    if a.None? && b.None? then None
    else Some((if a.Some? then a.value else 0) + (if b.Some? then b.value else 0))
  }

  function AddUsage(a: Usage, b: Usage): Usage {
    Usage(a.inputTokens + b.inputTokens, a.outputTokens + b.outputTokens,
          AddOptional(a.cacheRead, b.cacheRead), AddOptional(a.cacheCreation, b.cacheCreation))
  }

  const EMPTY_USAGE := Usage(0, 0, None, None)

  /** Adding usage is associative and commutative with the empty usage as unit, so a total does not
      depend on the order of its parts. */
  lemma UsageIsAMonoid(a: Usage, b: Usage, c: Usage)
    ensures AddUsage(a, b) == AddUsage(b, a)
    ensures AddUsage(AddUsage(a, b), c) == AddUsage(a, AddUsage(b, c))
    ensures AddUsage(a, EMPTY_USAGE) == a
  {
    match a.cacheRead { case None => case Some(_) => }
    match a.cacheCreation { case None => case Some(_) => }
  }

  // ----- one provider call

  function TextsOf(events: seq<StreamEvent>): seq<string> {
    if events == [] then []
    else TextsOf(events[..|events| - 1]) + match events[|events| - 1] case TextDelta(t) => [t] case _ => []
  }

  function CallsOf(events: seq<StreamEvent>): seq<ToolCall> {
    if events == [] then []
    else CallsOf(events[..|events| - 1]) + match events[|events| - 1] case ToolUseEnd(c) => [c] case _ => []
  }

  /** The usage of the last stop message. */
  function UsageOf(events: seq<StreamEvent>): Usage {
    if events == [] then EMPTY_USAGE
    else match events[|events| - 1] case MessageStop(u) => u case _ => UsageOf(events[..|events| - 1])
  }

  method CollectStreamEvents(events: seq<StreamEvent>) returns (texts: seq<string>, calls: seq<ToolCall>, usage: Usage)
    ensures texts == TextsOf(events) && calls == CallsOf(events) && usage == UsageOf(events)
  {
    texts, calls, usage := [], [], EMPTY_USAGE;
    for i := 0 to |events|
      invariant texts == TextsOf(events[..i]) && calls == CallsOf(events[..i]) && usage == UsageOf(events[..i])
    {
      assert events[..i + 1][..i] == events[..i];
      match events[i] {
        case TextDelta(t) => texts := texts + [t];
        case ToolUseEnd(c) => calls := calls + [c];
        case MessageStop(u) => usage := u;
        case _ =>
      }
    }
    assert events[..|events|] == events;
  }

  function Concat(texts: seq<string>): string {
    if texts == [] then "" else Concat(texts[..|texts| - 1]) + texts[|texts| - 1]
  }

  // ----- tools

  function ExecuteToolCall(env: Environment, turn: nat, call: ToolCall): (r: ToolResult)
    ensures r.toolUseId == call.id && r.name == call.name
    ensures call.name !in env.tools ==> r.isError
  {
    if call.name !in env.tools then ToolResult(call.id, call.name, "Error: Unknown tool '" + call.name + "'.", true)
    else match env.runTool(turn, call)
      case Output(text) => ToolResult(call.id, call.name, text, false)
      case ToolThrew(message) => ToolResult(call.id, call.name, "Error executing tool '" + call.name + "': " + message, true)
  }

  function ExecuteAll(env: Environment, turn: nat, calls: seq<ToolCall>): seq<ToolResult> {
    seq(|calls|, i requires 0 <= i < |calls| => ExecuteToolCall(env, turn, calls[i]))
  }

  function ToolResultsToMessages(results: seq<ToolResult>): seq<Message> {
    seq(|results|, i requires 0 <= i < |results| =>
      ToolResultMessage(results[i].toolUseId, results[i].output, results[i].isError))
  }

  function ToolCallsToAssistantMessage(texts: seq<string>, calls: seq<ToolCall>): Message {
    AssistantTools(if |texts| > 0 then Some(Concat(texts)) else None, calls)
  }

  // ----- the loop

  datatype Status = Completed | ToolUseLimit | Error | Cancelled | BudgetExceeded

  datatype Iteration = Iteration(number: nat, texts: seq<string>, calls: seq<ToolCall>, results: seq<ToolResult>, usage: Usage)

  datatype LoopResult = LoopResult(
    status: Status,
    finalText: string,
    iterations: seq<Iteration>,
    totalIterations: int,
    totalUsage: Usage,
    finalMessages: seq<Message>)

  /** What happens at the governor and the provider, in order; usage is none when the call failed
      before reporting it. */
  datatype GovernorEvent = Reserved(id: string) | Denied | Called | Settled(id: string, usage: Option<Usage>)

  const LIMIT_TEXT := "Agent loop reached maximum iterations without completing."

  /** The messages a turn adds. */
  function Block(it: Iteration): seq<Message> {
    if it.calls == [] then [AssistantText(Concat(it.texts))]
    else [ToolCallsToAssistantMessage(it.texts, it.calls)] + ToolResultsToMessages(it.results)
  }

  function Transcript(iterations: seq<Iteration>): seq<Message> {
    if iterations == [] then [] else Transcript(iterations[..|iterations| - 1]) + Block(iterations[|iterations| - 1])
  }

  function TotalUsage(iterations: seq<Iteration>): Usage {
    if iterations == [] then EMPTY_USAGE
    else AddUsage(TotalUsage(iterations[..|iterations| - 1]), iterations[|iterations| - 1].usage)
  }

  /** The turn records what the provider streamed on the conversation so far, with one result per
      tool call. */
  ghost predicate Faithful(env: Environment, history: seq<Message>, k: nat, it: Iteration) {
    var run := env.provider(k, history);
    && run.error.None?
    && it == Iteration(k + 1, TextsOf(run.events), CallsOf(run.events),
                       if CallsOf(run.events) == [] then [] else ExecuteAll(env, k, CallsOf(run.events)),
                       UsageOf(run.events))
  }

  ghost predicate FaithfulAt(env: Environment, opening: seq<Message>, iterations: seq<Iteration>, k: nat)
    requires k < |iterations|
  {
    Faithful(env, opening + Transcript(iterations[..k]), k, iterations[k])
  }

  ghost predicate AllFaithful(env: Environment, opening: seq<Message>, iterations: seq<Iteration>) {
    forall k: nat :: k < |iterations| ==> FaithfulAt(env, opening, iterations, k)
  }

  function ReservationOf(env: Environment, k: nat): string {
    match env.reserve(k) case Granted(id) => id case Refused(_) => ""
  }

  /** One answered provider call: within a reservation, if there is a governor. */
  function CallEvents(env: Environment, k: nat, usage: Option<Usage>): seq<GovernorEvent> {
    if env.governed then [Reserved(ReservationOf(env, k)), Called, Settled(ReservationOf(env, k), usage)] else [Called]
  }

  /** The calls of the recorded turns. */
  function LedgerOf(env: Environment, iterations: seq<Iteration>): seq<GovernorEvent> {
    if iterations == [] then []
    else
      var n := |iterations| - 1;
      LedgerOf(env, iterations[..n]) + CallEvents(env, n, Some(iterations[n].usage))
  }

  /** What comes after the last recorded turn. */
  function LedgerTail(env: Environment, n: nat, status: Status): seq<GovernorEvent> {
    match status
    case BudgetExceeded => [Denied]
    case Error => CallEvents(env, n, None)
    case _ => []
  }

  // ----- the discipline of reservations

  /** The reservation that is granted and not settled yet. */
  function OpenReservation(events: seq<GovernorEvent>): Option<string> {
    if events == [] then None
    else match events[|events| - 1]
      case Reserved(id) => Some(id)
      case Settled(_, _) => None
      case _ => OpenReservation(events[..|events| - 1])
  }

  /** At most one reservation is open at a time: none when one is asked for, the very one that is
      settled, and, under a governor, one at every provider call. */
  predicate Disciplined(governed: bool, events: seq<GovernorEvent>) {
    events != [] ==>
      var front := events[..|events| - 1];
      && Disciplined(governed, front)
      && match events[|events| - 1]
         case Reserved(_) => OpenReservation(front) == None
         case Denied => OpenReservation(front) == None
         case Called => governed ==> OpenReservation(front).Some?
         case Settled(id, _) => OpenReservation(front) == Some(id)
  }

  lemma EventTold(governed: bool, events: seq<GovernorEvent>, e: GovernorEvent)
    requires Disciplined(governed, events)
    requires match e
             case Reserved(_) => OpenReservation(events) == None
             case Denied => OpenReservation(events) == None
             case Called => governed ==> OpenReservation(events).Some?
             case Settled(id, _) => OpenReservation(events) == Some(id)
    ensures Disciplined(governed, events + [e])
    ensures OpenReservation(events + [e])
              == match e case Reserved(id) => Some(id) case Settled(_, _) => None case _ => OpenReservation(events)
  {
    assert (events + [e])[..|events|] == events;
  }

  /** No reservation is left open, and the discipline was kept throughout. */
  ghost predicate Accounted(env: Environment, events: seq<GovernorEvent>) {
    Disciplined(env.governed, events) && OpenReservation(events) == None
  }

  /** Every turn called some tool. */
  ghost predicate AllCalled(iterations: seq<Iteration>) {
    forall k :: 0 <= k < |iterations| ==> iterations[k].calls != []
  }

  /** The first `n` turns were neither aborted nor refused a reservation. */
  ghost predicate Cleared(env: Environment, n: nat) {
    forall k: nat :: k < n ==> !env.aborted(k) && (env.governed ==> env.reserve(k).Granted?)
  }

  /** Every exit of the loop, after `n` recorded turns. */
  ghost predicate ExitIsRight(env: Environment, opening: seq<Message>, maxIterations: int, r: LoopResult) {
    var n := |r.iterations|;
    var last := n - 1;
    && n <= (if maxIterations > 0 then maxIterations else 0)
    && (n > 0 ==> AllCalled(r.iterations[..last]))
    && Cleared(env, n)
    && (r.status == Completed <==> n > 0 && r.iterations[last].calls == [])
    && match r.status
       case Completed => r.finalText == Concat(r.iterations[last].texts) && r.totalIterations == n
       case Cancelled => n < maxIterations && env.aborted(n) && r.totalIterations == n && r.finalText == ""
       case BudgetExceeded =>
         n < maxIterations && !env.aborted(n) && env.governed && env.reserve(n).Refused? && r.totalIterations == n && r.finalText == ""
       case Error =>
         && n < maxIterations && !env.aborted(n) && (env.governed ==> env.reserve(n).Granted?)
         && env.provider(n, r.finalMessages).error.Some? && r.totalIterations == n + 1 && r.finalText == ""
       case ToolUseLimit => n == (if maxIterations > 0 then maxIterations else 0) && r.totalIterations == maxIterations && r.finalText == LIMIT_TEXT
  }

  /** The loop between turns: every recorded turn called tools, and the conversation, the usage and
      what the governor heard are those of the recorded turns. */
  ghost predicate InProgress(env: Environment, opening: seq<Message>, s: LoopState) {
    && AllFaithful(env, opening, s.iterations)
    && s.messages == opening + Transcript(s.iterations)
    && s.totalUsage == TotalUsage(s.iterations)
    && s.events == LedgerOf(env, s.iterations) && Accounted(env, s.events)
    && AllCalled(s.iterations) && Cleared(env, |s.iterations|)
  }

  datatype LoopState = LoopState(messages: seq<Message>, iterations: seq<Iteration>, totalUsage: Usage, events: seq<GovernorEvent>)

  /** What the loop returns, on every exit. */
  ghost predicate Returned(env: Environment, opening: seq<Message>, maxIterations: int, r: LoopResult, events: seq<GovernorEvent>) {
    && AllFaithful(env, opening, r.iterations)
    && r.finalMessages == opening + Transcript(r.iterations)
    && r.totalUsage == TotalUsage(r.iterations)
    && events == LedgerOf(env, r.iterations) + LedgerTail(env, |r.iterations|, r.status)
    && Accounted(env, events)
    && ExitIsRight(env, opening, maxIterations, r)
  }

  /** After the turn numbered `i`: the loop goes on with that turn recorded, or it returns. */
  ghost predicate TurnEnds(env: Environment, opening: seq<Message>, i: nat, maxIterations: int, s: LoopState, exit: Option<LoopResult>) {
    match exit
    case None => InProgress(env, opening, s) && |s.iterations| == i + 1
    case Some(r) => Returned(env, opening, maxIterations, r, s.events)
  }

  /** `runAgentLoop`: the recorded turns are what the provider said on the conversation so far, the
      messages and the usage are theirs, the governor heard of each of them, and each status is
      returned for its own reason. */
  method RunAgentLoop(env: Environment, prior: seq<Message>, userMessage: string, maxIterations: int)
    returns (result: LoopResult, events: seq<GovernorEvent>)
    ensures Returned(env, prior + [User(userMessage)], maxIterations, result, events)
    ensures SettledOnce(events)
    ensures Answered(prior) ==> Answered(result.finalMessages)
  {
    var s := LoopState(prior + [User(userMessage)], [], EMPTY_USAGE, []);
    var i := 0;
    while i < maxIterations
      invariant i == |s.iterations| && (i <= maxIterations || i == 0)
      invariant InProgress(env, prior + [User(userMessage)], s)
    {
      var exit: Option<LoopResult>;
      s, exit := Turn(env, s, i, maxIterations, prior + [User(userMessage)]);
      if exit.Some? {
        ReturnIsAccounted(env, prior, userMessage, maxIterations, exit.value, s.events);
        return exit.value, s.events;
      }
      i := i + 1;
    }
    result := LoopResult(ToolUseLimit, LIMIT_TEXT, s.iterations, maxIterations, s.totalUsage, s.messages);
    events := s.events;
    LimitReturns(env, prior + [User(userMessage)], s, maxIterations);
    ReturnIsAccounted(env, prior, userMessage, maxIterations, result, events);
  }

  /** One turn of the loop, which may end it. */
  method Turn(env: Environment, s: LoopState, i: nat, maxIterations: int, ghost opening: seq<Message>)
    returns (s': LoopState, exit: Option<LoopResult>)
    requires InProgress(env, opening, s) && i == |s.iterations| && i < maxIterations
    ensures TurnEnds(env, opening, i, maxIterations, s', exit)
  {
    if env.aborted(i) {
      EarlyReturns(env, opening, s, Cancelled, maxIterations, s.events);
      return s, Some(EarlyExit(Cancelled, s));
    }
    var told, reservation, refused := AskGovernor(env, i, s.events);
    if refused {
      EarlyReturns(env, opening, s, BudgetExceeded, maxIterations, told);
      return s.(events := told), Some(EarlyExit(BudgetExceeded, s));
    }
    s', exit := CallProvider(env, s, told, reservation, maxIterations, opening);
  }

  /** Asks for the reservation of a turn; without a governor there is nothing to ask. */
  method AskGovernor(env: Environment, i: nat, events: seq<GovernorEvent>)
    returns (told: seq<GovernorEvent>, reservation: Option<string>, refused: bool)
    requires Accounted(env, events)
    ensures refused <==> env.governed && env.reserve(i).Refused?
    ensures refused ==> told == events + [Denied] && Accounted(env, told)
    ensures !refused ==>
              && reservation == (if env.governed then Some(ReservationOf(env, i)) else None)
              && told == events + (if env.governed then [Reserved(ReservationOf(env, i))] else [])
              && Disciplined(env.governed, told) && OpenReservation(told) == reservation
  {
    told, reservation, refused := events, None, false;
    if env.governed {
      match env.reserve(i) {
        case Refused(_) =>
          EventTold(env.governed, events, Denied);
          told, refused := events + [Denied], true;
        case Granted(id) =>
          EventTold(env.governed, events, Reserved(id));
          told, reservation := events + [Reserved(id)], Some(id);
      }
    }
  }

  /** The provider call of a turn, inside its reservation. */
  method CallProvider(env: Environment, s: LoopState, told: seq<GovernorEvent>, reservation: Option<string>,
                      maxIterations: int, ghost opening: seq<Message>)
    returns (s': LoopState, exit: Option<LoopResult>)
    requires InProgress(env, opening, s) && |s.iterations| < maxIterations
    requires Cleared(env, |s.iterations| + 1)
    requires Reserving(env, s, told, reservation)
    ensures TurnEnds(env, opening, |s.iterations|, maxIterations, s', exit)
  {
    CallTold(env, s, told, reservation);
    var events := told + [Called];
    var run := env.provider(|s.iterations|, s.messages);
    if run.error.Some? {
      s', exit := RecordError(env, s, events, reservation, maxIterations, opening);
    } else {
      s', exit := RecordAnswer(env, s, events, reservation, run, maxIterations, opening);
    }
  }

  /** The turn has its reservation, if there is a governor to ask. */
  ghost predicate Reserving(env: Environment, s: LoopState, told: seq<GovernorEvent>, reservation: Option<string>) {
    var id := ReservationOf(env, |s.iterations|);
    && reservation == (if env.governed then Some(id) else None)
    && told == s.events + (if env.governed then [Reserved(id)] else [])
    && Disciplined(env.governed, told) && OpenReservation(told) == reservation
  }

  /** The provider was called inside the reservation, which is still open. */
  ghost predicate Calling(env: Environment, s: LoopState, events: seq<GovernorEvent>, reservation: Option<string>) {
    var id := ReservationOf(env, |s.iterations|);
    && reservation == (if env.governed then Some(id) else None)
    && events == s.events + (if env.governed then [Reserved(id), Called] else [Called])
    && Disciplined(env.governed, events) && OpenReservation(events) == reservation
  }

  lemma CallTold(env: Environment, s: LoopState, told: seq<GovernorEvent>, reservation: Option<string>)
    requires Reserving(env, s, told, reservation)
    ensures Calling(env, s, told + [Called], reservation)
  {
    EventTold(env.governed, told, Called);
  }

  /** The call failed: the reservation is settled without usage and the loop returns. */
  method RecordError(env: Environment, s: LoopState, events: seq<GovernorEvent>, reservation: Option<string>,
                     maxIterations: int, ghost opening: seq<Message>)
    returns (s': LoopState, exit: Option<LoopResult>)
    requires InProgress(env, opening, s) && |s.iterations| < maxIterations
    requires Cleared(env, |s.iterations| + 1)
    requires env.provider(|s.iterations|, s.messages).error.Some?
    requires Calling(env, s, events, reservation)
    ensures TurnEnds(env, opening, |s.iterations|, maxIterations, s', exit)
  {
    var settled := Settle(env, s, events, reservation, None);
    EarlyReturns(env, opening, s, Error, maxIterations, settled);
    s', exit := s.(events := settled), Some(EarlyExit(Error, s));
  }

  /** Settles the open reservation, if the loop has a governor. */
  method Settle(env: Environment, ghost s: LoopState, events: seq<GovernorEvent>, reservation: Option<string>, usage: Option<Usage>)
    returns (settled: seq<GovernorEvent>)
    requires Calling(env, s, events, reservation)
    ensures settled == s.events + CallEvents(env, |s.iterations|, usage) && Accounted(env, settled)
  {
    settled := events;
    if reservation.Some? {
      EventTold(env.governed, events, Settled(reservation.value, usage));
      settled := events + [Settled(reservation.value, usage)];
    }
  }

  /** The second half of a turn: the provider answered, the reservation is settled, the tools run
      and the turn is recorded. */
  method RecordAnswer(env: Environment, s: LoopState, events: seq<GovernorEvent>, reservation: Option<string>,
                      run: ProviderRun, maxIterations: int, ghost opening: seq<Message>)
    returns (s': LoopState, exit: Option<LoopResult>)
    requires InProgress(env, opening, s) && |s.iterations| < maxIterations
    requires Cleared(env, |s.iterations| + 1)
    requires run == env.provider(|s.iterations|, s.messages) && run.error.None?
    requires Calling(env, s, events, reservation)
    ensures TurnEnds(env, opening, |s.iterations|, maxIterations, s', exit)
  {
    var i := |s.iterations|;
    var texts, calls, usage := CollectStreamEvents(run.events);
    var settled := Settle(env, s, events, reservation, Some(usage));
    var results := if calls == [] then [] else ExecuteAll(env, i, calls);
    var turn := Iteration(i + 1, texts, calls, results, usage);
    s' := LoopState(s.messages + Block(turn), s.iterations + [turn], AddUsage(s.totalUsage, usage), settled);
    exit := if calls == [] then Some(LoopResult(Completed, Concat(texts), s'.iterations, i + 1, s'.totalUsage, s'.messages)) else None;
    RecordedTurnEnds(env, opening, s, turn, s', maxIterations);
  }

  /** Adding a faithful turn to the messages, the iterations, the usage and the ledger keeps them
      in step. */
  lemma TurnIsRecorded(env: Environment, opening: seq<Message>, s: LoopState, turn: Iteration, s': LoopState)
    requires InProgress(env, opening, s) && Faithful(env, s.messages, |s.iterations|, turn)
    requires s'.messages == s.messages + Block(turn) && s'.iterations == s.iterations + [turn]
    requires s'.totalUsage == AddUsage(s.totalUsage, turn.usage)
    requires s'.events == s.events + CallEvents(env, |s.iterations|, Some(turn.usage))
    ensures AllFaithful(env, opening, s'.iterations)
    ensures s'.messages == opening + Transcript(s'.iterations) && s'.totalUsage == TotalUsage(s'.iterations)
    ensures s'.events == LedgerOf(env, s'.iterations)
  {
    RecordTurn(env, opening, s.iterations, turn);
    ConcatAssociates(opening, Transcript(s.iterations), Block(turn));
  }

  /** A recorded turn completes the run when it called no tool, and otherwise leads to the next. */
  lemma RecordedTurnEnds(env: Environment, opening: seq<Message>, s: LoopState, turn: Iteration, s': LoopState, maxIterations: int)
    requires InProgress(env, opening, s) && Faithful(env, s.messages, |s.iterations|, turn)
    requires |s.iterations| < maxIterations && Cleared(env, |s.iterations| + 1)
    requires s'.messages == s.messages + Block(turn) && s'.iterations == s.iterations + [turn]
    requires s'.totalUsage == AddUsage(s.totalUsage, turn.usage)
    requires s'.events == s.events + CallEvents(env, |s.iterations|, Some(turn.usage)) && Accounted(env, s'.events)
    ensures TurnEnds(env, opening, |s.iterations|, maxIterations, s',
                     if turn.calls != [] then None
                     else Some(LoopResult(Completed, Concat(turn.texts), s'.iterations, |s.iterations| + 1, s'.totalUsage, s'.messages)))
  {
    TurnIsRecorded(env, opening, s, turn, s');
    if turn.calls == [] {
      CompletedReturns(env, opening, s, turn, s', maxIterations);
    }
  }

  lemma ConcatAssociates<T>(a: seq<T>, b: seq<T>, c: seq<T>)
    ensures a + b + c == a + (b + c)
  {}

  function EarlyExit(status: Status, s: LoopState): LoopResult {
    var n := |s.iterations|;
    LoopResult(status, "", s.iterations, if status == Error then n + 1 else n, s.totalUsage, s.messages)
  }

  lemma EarlyReturns(env: Environment, opening: seq<Message>, s: LoopState, status: Status, maxIterations: int,
                     events: seq<GovernorEvent>)
    requires InProgress(env, opening, s) && |s.iterations| < maxIterations
    requires var n := |s.iterations|;
             match status
             case Cancelled => env.aborted(n)
             case BudgetExceeded => !env.aborted(n) && env.governed && env.reserve(n).Refused?
             case Error => !env.aborted(n) && (env.governed ==> env.reserve(n).Granted?) && env.provider(n, s.messages).error.Some?
             case _ => false
    requires events == s.events + LedgerTail(env, |s.iterations|, status) && Accounted(env, events)
    ensures Returned(env, opening, maxIterations, EarlyExit(status, s), events)
  {
    var n := |s.iterations|;
    assert n > 0 ==> AllCalled(s.iterations[..n - 1]) && s.iterations[n - 1].calls != [];
  }

  lemma LimitReturns(env: Environment, opening: seq<Message>, s: LoopState, maxIterations: int)
    requires InProgress(env, opening, s) && |s.iterations| == if maxIterations > 0 then maxIterations else 0
    ensures Returned(env, opening, maxIterations,
                     LoopResult(ToolUseLimit, LIMIT_TEXT, s.iterations, maxIterations, s.totalUsage, s.messages), s.events)
  {
    var n := |s.iterations|;
    assert n > 0 ==> AllCalled(s.iterations[..n - 1]) && s.iterations[n - 1].calls != [];
    assert s.events + [] == s.events;
  }

  lemma CompletedReturns(env: Environment, opening: seq<Message>, s: LoopState, last: Iteration, s': LoopState, maxIterations: int)
    requires InProgress(env, opening, s) && |s.iterations| < maxIterations && last.calls == []
    requires s'.iterations == s.iterations + [last] && AllFaithful(env, opening, s'.iterations)
    requires s'.messages == opening + Transcript(s'.iterations) && s'.totalUsage == TotalUsage(s'.iterations)
    requires s'.events == LedgerOf(env, s'.iterations) && Accounted(env, s'.events)
    requires Cleared(env, |s'.iterations|)
    ensures Returned(env, opening, maxIterations,
                     LoopResult(Completed, Concat(last.texts), s'.iterations, |s.iterations| + 1, s'.totalUsage, s'.messages), s'.events)
  {
    assert s'.iterations[..|s.iterations|] == s.iterations;
    assert s'.events + [] == s'.events;
  }

  lemma RecordTurn(env: Environment, opening: seq<Message>, iterations: seq<Iteration>, turn: Iteration)
    requires AllFaithful(env, opening, iterations)
    requires Faithful(env, opening + Transcript(iterations), |iterations|, turn)
    ensures AllFaithful(env, opening, iterations + [turn])
    ensures Transcript(iterations + [turn]) == Transcript(iterations) + Block(turn)
    ensures TotalUsage(iterations + [turn]) == AddUsage(TotalUsage(iterations), turn.usage)
    ensures LedgerOf(env, iterations + [turn]) == LedgerOf(env, iterations) + CallEvents(env, |iterations|, Some(turn.usage))
  {
    var all := iterations + [turn];
    assert all[..|iterations|] == iterations;
    forall k: nat | k < |all|
      ensures FaithfulAt(env, opening, all, k)
    {
      if k < |iterations| {
        assert all[..k] == iterations[..k];
        assert FaithfulAt(env, opening, iterations, k);
      }
    }
  }

  // ----- what follows for the governor and the transcript

  /** The reservation granted at `i` is settled at `j`, with nothing but provider calls between. */
  ghost predicate SettledAt(ledger: seq<GovernorEvent>, i: nat, j: nat) {
    && i < j < |ledger| && ledger[i].Reserved? && ledger[j].Settled? && ledger[j].id == ledger[i].id
    && CallsOnly(ledger, i + 1, j)
  }

  ghost predicate CallsOnly(ledger: seq<GovernorEvent>, from: nat, to: nat)
    requires to <= |ledger|
  {
    forall k :: from <= k < to ==> ledger[k].Called?
  }

  /** The reservation granted at `i` has not been settled, and only provider calls came after it. */
  ghost predicate OpenAt(ledger: seq<GovernorEvent>, i: nat) {
    && i < |ledger| && ledger[i].Reserved? && OpenReservation(ledger) == Some(ledger[i].id)
    && CallsOnly(ledger, i + 1, |ledger|)
  }

  /** Every granted reservation is settled, before the next one is asked for, and nothing else is
      settled; so each is settled exactly once. */
  ghost predicate SettledOnce(ledger: seq<GovernorEvent>) {
    && (forall i: nat :: i < |ledger| && ledger[i].Reserved? ==> exists j: nat :: SettledAt(ledger, i, j))
    && (forall j: nat :: j < |ledger| && ledger[j].Settled? ==> exists i: nat :: SettledAt(ledger, i, j))
  }

  lemma SettledAtExtends(ledger: seq<GovernorEvent>, e: GovernorEvent, i: nat, j: nat)
    requires SettledAt(ledger, i, j)
    ensures SettledAt(ledger + [e], i, j)
  {
    forall k | i + 1 <= k < j
      ensures (ledger + [e])[k].Called?
    {
      assert ledger[k].Called?;
    }
  }

  /** In a disciplined ledger a grant is settled or still open, and what is settled was granted. */
  lemma {:induction false} DisciplineSettles(governed: bool, ledger: seq<GovernorEvent>)
    requires Disciplined(governed, ledger)
    ensures OpenReservation(ledger).Some? ==> exists i: nat :: OpenAt(ledger, i)
    ensures forall i: nat :: i < |ledger| && ledger[i].Reserved? ==>
              OpenAt(ledger, i) || exists j: nat :: SettledAt(ledger, i, j)
    ensures forall j: nat :: j < |ledger| && ledger[j].Settled? ==> exists i: nat :: SettledAt(ledger, i, j)
  {
    if ledger != [] {
      var n := |ledger| - 1;
      var front, e := ledger[..n], ledger[n];
      assert ledger == front + [e];
      DisciplineSettles(governed, front);
      if e.Settled? {
        var i: nat :| OpenAt(front, i);
        OpenBecomesSettled(front, e, i);
      } else if e.Called? && OpenReservation(front).Some? {
        var i: nat :| OpenAt(front, i);
        OpenStaysOpen(front, i);
      } else if e.Reserved? {
        assert OpenAt(ledger, n);
      }
      forall i: nat | i < |ledger| && ledger[i].Reserved?
        ensures OpenAt(ledger, i) || exists j: nat :: SettledAt(ledger, i, j)
      {
        GrantAfterOneMore(governed, front, e, i);
      }
      forall j: nat | j < n && ledger[j].Settled?
        ensures exists i: nat :: SettledAt(ledger, i, j)
      {
        assert front[j].Settled?;
        var i: nat :| SettledAt(front, i, j);
        SettledAtExtends(front, e, i, j);
      }
    }
  }

  lemma OpenBecomesSettled(ledger: seq<GovernorEvent>, e: GovernorEvent, i: nat)
    requires OpenAt(ledger, i) && e.Settled? && OpenReservation(ledger) == Some(e.id)
    ensures SettledAt(ledger + [e], i, |ledger|)
  {}

  lemma OpenStaysOpen(ledger: seq<GovernorEvent>, i: nat)
    requires OpenAt(ledger, i)
    ensures OpenAt(ledger + [Called], i)
  {
    assert (ledger + [Called])[..|ledger|] == ledger;
  }

  lemma GrantAfterOneMore(governed: bool, front: seq<GovernorEvent>, e: GovernorEvent, i: nat)
    requires Disciplined(governed, front + [e]) && i < |front + [e]| && (front + [e])[i].Reserved?
    requires i < |front| ==> OpenAt(front, i) || exists j: nat :: SettledAt(front, i, j)
    ensures OpenAt(front + [e], i) || exists j: nat :: SettledAt(front + [e], i, j)
  {
    assert (front + [e])[..|front|] == front;
    if i == |front| {
      assert OpenAt(front + [e], i);
    } else if OpenAt(front, i) {
      if e.Settled? { OpenBecomesSettled(front, e, i); } else { OpenStaysOpen(front, i); }
    } else {
      var j: nat :| SettledAt(front, i, j);
      SettledAtExtends(front, e, i, j);
    }
  }

  /** On every exit path each granted reservation is settled exactly once, before the next reserve
      or the return, and under a governor no provider call is made without one. */
  lemma EveryReservationIsSettledOnce(env: Environment, opening: seq<Message>, maxIterations: int, r: LoopResult,
                                      events: seq<GovernorEvent>)
    requires Returned(env, opening, maxIterations, r, events)
    ensures SettledOnce(events)
    ensures env.governed ==> forall k: nat :: k < |events| && events[k].Called? ==> OpenReservation(events[..k]).Some?
  {
    DisciplineSettles(env.governed, events);
    forall k: nat | k < |events| && events[k].Called?
      ensures env.governed ==> OpenReservation(events[..k]).Some?
    {
      DisciplineOfPrefix(env.governed, events, k);
    }
  }

  lemma {:induction false} DisciplineOfPrefix(governed: bool, events: seq<GovernorEvent>, k: nat)
    requires Disciplined(governed, events) && k < |events| && events[k].Called?
    ensures governed ==> OpenReservation(events[..k]).Some?
  {
    var n := |events| - 1;
    if k < n {
      DisciplineOfPrefix(governed, events[..n], k);
      assert events[..n][..k] == events[..k];
    }
  }

  /** One result message per call, with its id, in the order of the calls. */
  ghost predicate Replies(messages: seq<Message>, calls: seq<ToolCall>) {
    && |messages| == |calls|
    && forall j :: 0 <= j < |calls| ==> messages[j].ToolResultMessage? && messages[j].toolUseId == calls[j].id
  }

  /** Each assistant tool-use message is followed at once by exactly its results: same ids, same
      order, and no result stands anywhere else. */
  ghost predicate Answered(messages: seq<Message>) {
    if messages == [] then true
    else match messages[0]
      case AssistantTools(_, calls) =>
        && |calls| < |messages| && Replies(messages[1..1 + |calls|], calls)
        && Answered(messages[1 + |calls|..])
      case ToolResultMessage(_, _, _) => false
      case _ => Answered(messages[1..])
  }

  lemma {:induction false} AnsweredConcat(a: seq<Message>, b: seq<Message>)
    requires Answered(a) && Answered(b)
    ensures Answered(a + b)
    decreases |a|
  {
    if a == [] {
      assert a + b == b;
    } else {
      var n := if a[0].AssistantTools? then 1 + |a[0].calls| else 1;
      AnsweredConcat(a[n..], b);
      SplitConcat(a, b, n);
    }
  }

  lemma SplitConcat<T>(a: seq<T>, b: seq<T>, n: nat)
    requires 1 <= n <= |a|
    ensures (a + b)[0] == a[0] && (a + b)[1..n] == a[1..n] && (a + b)[n..] == a[n..] + b
  {}

  lemma BlockIsAnswered(env: Environment, history: seq<Message>, k: nat, it: Iteration)
    requires Faithful(env, history, k, it)
    ensures Answered(Block(it))
  {
    if it.calls != [] {
      assert Block(it)[1 + |it.calls|..] == [];
    } else {
      assert Block(it)[1..] == [];
    }
  }

  lemma FrontIsFaithful(env: Environment, opening: seq<Message>, iterations: seq<Iteration>)
    requires iterations != [] && AllFaithful(env, opening, iterations)
    ensures AllFaithful(env, opening, iterations[..|iterations| - 1])
  {
    var front := iterations[..|iterations| - 1];
    forall k: nat | k < |front|
      ensures FaithfulAt(env, opening, front, k)
    {
      assert front[..k] == iterations[..k];
      assert FaithfulAt(env, opening, iterations, k);
    }
  }

  lemma {:induction false} TranscriptIsAnswered(env: Environment, opening: seq<Message>, iterations: seq<Iteration>)
    requires AllFaithful(env, opening, iterations)
    ensures Answered(Transcript(iterations))
  {
    if iterations != [] {
      var n := |iterations| - 1;
      var front := iterations[..n];
      FrontIsFaithful(env, opening, iterations);
      TranscriptIsAnswered(env, opening, front);
      assert FaithfulAt(env, opening, iterations, n);
      BlockIsAnswered(env, opening + Transcript(front), n, iterations[n]);
      AnsweredConcat(Transcript(front), Block(iterations[n]));
    }
  }

  /** A conversation whose earlier messages are answered stays so through a whole run. */
  lemma ConversationStaysAnswered(env: Environment, prior: seq<Message>, userMessage: string, iterations: seq<Iteration>)
    requires Answered(prior) && AllFaithful(env, prior + [User(userMessage)], iterations)
    ensures Answered(prior + [User(userMessage)] + Transcript(iterations))
  {
    TranscriptIsAnswered(env, prior + [User(userMessage)], iterations);
    assert [User(userMessage)][1..] == [];
    assert Answered([User(userMessage)]);
    AnsweredConcat(prior, [User(userMessage)]);
    AnsweredConcat(prior + [User(userMessage)], Transcript(iterations));
  }

  lemma ReturnIsAccounted(env: Environment, prior: seq<Message>, userMessage: string, maxIterations: int,
                          r: LoopResult, events: seq<GovernorEvent>)
    requires Returned(env, prior + [User(userMessage)], maxIterations, r, events)
    ensures SettledOnce(events)
    ensures Answered(prior) ==> Answered(r.finalMessages)
  {
    EveryReservationIsSettledOnce(env, prior + [User(userMessage)], maxIterations, r, events);
    if Answered(prior) {
      ConversationStaysAnswered(env, prior, userMessage, r.iterations);
    }
  }
}
