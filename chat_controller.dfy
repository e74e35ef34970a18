/** The chat request controller (src/hooks/useChatController.js): three
    flags, the message being built, and the abort-controller slot, driven by
    `generateAnswer`, `processResponse`, `clear`, `reset` and
    `cancelRequest`. React state setters are modelled as immediate field
    updates in program order; the HTTP transport and the stream parser are
    given as their outcomes. */
module ChatControl {
  import opened Wrappers
  import opened Messages
  import opened ResponseText

  /** `requestOptions.type` */
  datatype RequestType = Chat | Ask

  /** `generatedResponse.context`: its optional `thoughts` and `data_points`. */
  datatype CompletionContext = CompletionContext(thoughts: Option<string>, dataPoints: Option<seq<string>>)

  /** `response.choices[0].message`: the generated content and its context. */
  datatype Completion = Completion(content: string, context: Option<CompletionContext>)

  /** What `processResponse` is handed: a string, a parsed completion body
      (`None` when `choices[0].message` is not there), or a streamed
      response. */
  datatype Response =
    | TextResponse(text: string)
    | CompletionResponse(message: Option<Completion>)
    | StreamResponse

  /** A thrown error: the `ChatResponseError` the transport throws for a
      failed HTTP status, or any other error (a network failure, the
      `TypeError` of a missing `choices[0].message`, a parser failure),
      which has no `code`. */
  datatype Thrown = ResponseError(error: ChatResponseError) | OtherError

  /** The outcome of `getAPIResponse`: a response, or a rejection. */
  datatype Transport = Delivered(response: Response) | Rejected(error: Thrown)

  /** What the stream parser did through its callbacks: the last message
      it passed to `onChunkRead` (if any), whether it called `onCancel`, and
      whether it threw. */
  datatype StreamRun = StreamRun(lastChunk: Option<ChatMessage>, cancelled: bool, thrown: Option<Thrown>)

  /** The controller's state. `aborts[k]` tells whether the `k`-th
      `AbortController` created was aborted; `current` is the one
      `abortControllerRef.current` holds; `nextId` stands for the next
      `crypto.randomUUID()`. */
  datatype ControllerState = ControllerState(
    generatingAnswer: bool,
    isAwaitingResponse: bool,
    isProcessingResponse: bool,
    processingMessage: Option<ChatMessage>,
    aborts: seq<bool>,
    current: nat,
    nextId: nat)

  predicate ValidState(st: ControllerState) {
    st.current < |st.aborts|
  }

  /** The state right after the hook mounts. */
  function InitialState(): (st: ControllerState)
    ensures ValidState(st)
  {
    ControllerState(false, false, false, None, [false], 0, 0)
  }

  /** The state after a step, and the error it threw, if any. */
  datatype Step = Step(st: ControllerState, thrown: Option<Thrown>)

  // ---------------------------------------------------------------------
  // clear, reset, cancelRequest

  function ClearSt(st: ControllerState): ControllerState {
    st.(generatingAnswer := false, isAwaitingResponse := false, isProcessingResponse := false)
  }

  function ResetSt(st: ControllerState): ControllerState {
    ClearSt(st.(processingMessage := None))
  }

  function CancelSt(st: ControllerState): ControllerState
    requires ValidState(st)
  {
    st.(aborts := st.aborts[st.current := true])
  }

  /** `clear` lowers the three flags and keeps everything else, the message
      included; `reset` does the same and drops the message. */
  lemma ClearAndReset(st: ControllerState)
    ensures var c, r := ClearSt(st), ResetSt(st);
      && !c.generatingAnswer && !c.isAwaitingResponse && !c.isProcessingResponse
      && c.processingMessage == st.processingMessage
      && c.aborts == st.aborts && c.current == st.current && c.nextId == st.nextId
      && r == c.(processingMessage := None)
  {
  }

  /** `cancelRequest` aborts exactly the current controller. */
  lemma CancelAbortsCurrent(st: ControllerState)
    requires ValidState(st)
    ensures var c := CancelSt(st);
      && |c.aborts| == |st.aborts| && c.aborts[st.current]
      && (forall k :: 0 <= k < |st.aborts| && k != st.current ==> c.aborts[k] == st.aborts[k])
      && c == st.(aborts := c.aborts)
  {
  }

  // ---------------------------------------------------------------------
  // processResponse / updateChatWithMessageOrChunk

  /** The message `updateChatWithMessageOrChunk` builds. */
  function NewMessage(id: nat, value: string, steps: seq<string>, followups: seq<string>, citations: seq<Citation>,
                      timestamp: string, isUserMessage: bool, thoughts: Option<string>, dataPoints: Option<seq<string>>): ChatMessage
  {
    ChatMessage(id, [TextEntry(value, steps)], followups, citations, timestamp, isUserMessage, thoughts, dataPoints, None)
  }

  /** Posting a message: it becomes `processingMessage` under a fresh id. */
  function PostSt(st: ControllerState, m: ChatMessage): ControllerState {
    st.(processingMessage := Some(m), nextId := st.nextId + 1)
  }

  /** The streamed path up to the parser call: the posted message,
      `isProcessingResponse` raised, and a fresh abort controller made
      current. */
  function StreamStartSt(st: ControllerState, m: ChatMessage): ControllerState {
    PostSt(st, m).(isProcessingResponse := true, aborts := st.aborts + [false], current := |st.aborts|)
  }

  /** The parser's callbacks, then the closing `clear()` unless it threw. */
  function StreamEndSt(st: ControllerState, run: StreamRun): Step {
    var st1 := if run.lastChunk.Some? then st.(processingMessage := run.lastChunk) else st;
    var st2 := if run.cancelled then ClearSt(st1) else st1;
    if run.thrown.Some? then Step(st2, run.thrown) else Step(ClearSt(st2), None)
  }

  /** `updateChatWithMessageOrChunk(message, chunked)` with the arrays the
      enclosing `processResponse` call holds. */
  function UpdateChatSt(st: ControllerState, value: string, chunked: bool, steps: seq<string>, followups: seq<string>,
                        citations: seq<Citation>, timestamp: string, isUserMessage: bool,
                        thoughts: Option<string>, dataPoints: Option<seq<string>>, run: StreamRun): Step
  {
    var m := NewMessage(st.nextId, if chunked then "" else value, steps, followups, citations, timestamp, isUserMessage, thoughts, dataPoints);
    if chunked then StreamEndSt(StreamStartSt(st, m), run) else Step(PostSt(st, m), None)
  }

  /** `thoughts ?? ''` and `data_points ?? []` over an optional context. */
  function ThoughtsOf(context: Option<CompletionContext>): string {
    if context.Some? && context.value.thoughts.Some? then context.value.thoughts.value else ""
  }

  function DataPointsOf(context: Option<CompletionContext>): seq<string> {
    if context.Some? && context.value.dataPoints.Some? then context.value.dataPoints.value else []
  }

  /** `processResponse(response, isUserMessage, useStream)`. */
  function ProcessResponseSt(st: ControllerState, response: Response, isUserMessage: bool, useStream: bool,
                             timestamp: string, run: StreamRun): Step
    requires isUserMessage ==> response.TextResponse?
  {
    if isUserMessage || response.TextResponse? then
      UpdateChatSt(st, response.text, false, [], [], [], timestamp, isUserMessage, None, None, run)
    else if useStream then
      UpdateChatSt(st, "", true, [], [], [], timestamp, isUserMessage, None, None, run)
    else if response.CompletionResponse? && response.message.Some? then
      var c := response.message.value;
      var a := Analysis(c.content);
      UpdateChatSt(st, a.replacedText, false, a.followingSteps, a.followupQuestions, a.citations, timestamp,
                   isUserMessage, Some(ThoughtsOf(c.context)), Some(DataPointsOf(c.context)), run)
    else
      Step(st, Some(OtherError))
  }

  // ---------------------------------------------------------------------
  // generateAnswer

  /** A request: `requestOptions.question`, `requestOptions.type`, and
      `httpOptions.stream`. */
  datatype Request = Request(question: string, kind: RequestType, stream: bool)

  /** The user message a chat request posts first. */
  function UserMessage(id: nat, question: string, timestamp: string): ChatMessage {
    NewMessage(id, question, [], [], [], timestamp, true, None, None)
  }

  /** `generateAnswer` up to the transport call: `generatingAnswer` raised,
      the user message posted for a chat request, then awaiting with no
      message. */
  function BeforeTransportSt(st: ControllerState, request: Request, timestamp: string): ControllerState {
    var st1 := st.(generatingAnswer := true);
    var st2 := if request.kind == Chat then PostSt(st1, UserMessage(st1.nextId, request.question, timestamp)) else st1;
    st2.(isAwaitingResponse := true, processingMessage := None)
  }

  /** The error message the catch block attaches: `error?.code === 400`
      holds only for a `ChatResponseError` with status 400. */
  function ErrorMessage(error: Thrown, invalidRequestError: string, apiErrorMessage: string): string {
    if error.ResponseError? && error.error.code == 400 then invalidRequestError else apiErrorMessage
  }

  /** What `getTimestamp()` returns in each `processResponse` call of one
      `generateAnswer`: for the user message, for the answer, and for the
      empty message the catch block posts. */
  datatype Timestamps = Timestamps(question: string, answer: string, empty: string)

  /** The catch block: an empty assistant message is posted when the
      message captured at the start of the call was null; then the error is
      attached to the current message, if there is one. */
  function CatchSt(st: ControllerState, captured: Option<ChatMessage>, error: Thrown, timestamp: string,
                   invalidRequestError: string, apiErrorMessage: string): ControllerState
  {
    var chatError := ChatError(ErrorMessage(error, invalidRequestError, apiErrorMessage));
    var st1 := if captured.None? then ProcessResponseSt(st, TextResponse(""), false, false, timestamp, StreamRun(None, false, None)).st else st;
    st1.(processingMessage := if st1.processingMessage.Some? then Some(st1.processingMessage.value.(error := Some(chatError))) else None)
  }

  /** `generateAnswer(requestOptions, httpOptions)`. */
  function GenerateAnswerSt(st: ControllerState, request: Request, transport: Transport, run: StreamRun, ts: Timestamps,
                            invalidRequestError: string, apiErrorMessage: string): ControllerState
  {
    if request.question == "" then st
    else
      var st1 := BeforeTransportSt(st, request, ts.question);
      var step := match transport
        case Rejected(e) => Step(st1, Some(e))
        case Delivered(response) =>
          ProcessResponseSt(st1.(isAwaitingResponse := false), response, false, request.stream, ts.answer, run);
      var st2 := if step.thrown.Some? then CatchSt(step.st, st.processingMessage, step.thrown.value, ts.empty,
                                                  invalidRequestError, apiErrorMessage)
                 else step.st;
      ClearSt(st2)
  }

  // ---------------------------------------------------------------------
  // The controller

  class ChatController {
    /** `globalConfig.INVALID_REQUEST_ERROR` and `globalConfig.API_ERROR_MESSAGE`. */
    const invalidRequestError: string
    const apiErrorMessage: string

    var generatingAnswer: bool
    var isAwaitingResponse: bool
    var isProcessingResponse: bool
    var processingMessage: Option<ChatMessage>
    var aborts: seq<bool>
    var current: nat
    var nextId: nat

    function State(): ControllerState
      reads this
    {
      ControllerState(generatingAnswer, isAwaitingResponse, isProcessingResponse, processingMessage, aborts, current, nextId)
    }

    predicate Valid()
      reads this
    {
      ValidState(State())
    }

    constructor(invalidRequestError: string, apiErrorMessage: string)
      ensures State() == InitialState() && Valid()
      ensures this.invalidRequestError == invalidRequestError && this.apiErrorMessage == apiErrorMessage
    {
      this.invalidRequestError := invalidRequestError;
      this.apiErrorMessage := apiErrorMessage;
      generatingAnswer, isAwaitingResponse, isProcessingResponse := false, false, false;
      processingMessage := None;
      aborts, current, nextId := [false], 0, 0;
    }

    method Clear()
      modifies this
      ensures State() == ClearSt(old(State()))
    {
      isAwaitingResponse := false;
      isProcessingResponse := false;
      generatingAnswer := false;
    }

    method Reset()
      modifies this
      ensures State() == ResetSt(old(State()))
    {
      processingMessage := None;
      Clear();
    }

    method CancelRequest()
      requires Valid()
      modifies this
      ensures State() == CancelSt(old(State())) && Valid()
    {
      aborts := aborts[current := true];
    }

    /** Posts a message under a fresh id. */
    method Post(m: ChatMessage)
      modifies this
      ensures State() == PostSt(old(State()), m)
    {
      processingMessage := Some(m);
      nextId := nextId + 1;
    }

    method UpdateChatWithMessageOrChunk(value: string, chunked: bool, steps: seq<string>, followups: seq<string>,
                                        citations: seq<Citation>, timestamp: string, isUserMessage: bool,
                                        thoughts: Option<string>, dataPoints: Option<seq<string>>, run: StreamRun)
      returns (thrown: Option<Thrown>)
      requires Valid()
      modifies this
      ensures Step(State(), thrown) == UpdateChatSt(old(State()), value, chunked, steps, followups, citations,
                                                    timestamp, isUserMessage, thoughts, dataPoints, run)
      ensures Valid()
    {
      var newMessage := NewMessage(nextId, if chunked then "" else value, steps, followups, citations, timestamp,
                                   isUserMessage, thoughts, dataPoints);
      Post(newMessage);
      thrown := None;
      if chunked {
        isProcessingResponse := true;
        aborts, current := aborts + [false], |aborts|;
        // the parser's callbacks
        if run.lastChunk.Some? {
          processingMessage := run.lastChunk;
        }
        if run.cancelled {
          Clear();
        }
        thrown := run.thrown;
        if thrown.None? {
          Clear();
        }
      }
    }

    method ProcessResponse(response: Response, isUserMessage: bool, useStream: bool, timestamp: string, run: StreamRun)
      returns (thrown: Option<Thrown>)
      requires Valid() && (isUserMessage ==> response.TextResponse?)
      modifies this
      ensures Step(State(), thrown) == ProcessResponseSt(old(State()), response, isUserMessage, useStream, timestamp, run)
      ensures Valid()
    {
      if isUserMessage || response.TextResponse? {
        thrown := UpdateChatWithMessageOrChunk(response.text, false, [], [], [], timestamp, isUserMessage, None, None, run);
      } else if useStream {
        thrown := UpdateChatWithMessageOrChunk("", true, [], [], [], timestamp, isUserMessage, None, None, run);
      } else if response.CompletionResponse? && response.message.Some? {
        var generatedResponse := response.message.value;
        var processedText := ProcessText(generatedResponse.content);
        var thoughts := ThoughtsOf(generatedResponse.context);
        var dataPoints := DataPointsOf(generatedResponse.context);
        thrown := UpdateChatWithMessageOrChunk(processedText.replacedText, false, processedText.followingSteps,
                                               processedText.followupQuestions, processedText.citations, timestamp,
                                               isUserMessage, Some(thoughts), Some(dataPoints), run);
      } else {
        thrown := Some(OtherError);
      }
    }

    /** The `try` block up to the transport call. */
    method BeforeTransport(request: Request, timestamp: string)
      requires Valid()
      modifies this
      ensures State() == BeforeTransportSt(old(State()), request, timestamp) && Valid()
    {
      generatingAnswer := true;
      if request.kind == Chat {
        var _ := ProcessResponse(TextResponse(request.question), true, false, timestamp, StreamRun(None, false, None));
      }
      isAwaitingResponse := true;
      processingMessage := None;
    }

    /** The `catch` block. */
    method Catch(captured: Option<ChatMessage>, error: Thrown, timestamp: string)
      requires Valid()
      modifies this
      ensures State() == CatchSt(old(State()), captured, error, timestamp, invalidRequestError, apiErrorMessage) && Valid()
    {
      var chatError := ChatError(ErrorMessage(error, invalidRequestError, apiErrorMessage));
      if captured.None? {
        var _ := ProcessResponse(TextResponse(""), false, false, timestamp, StreamRun(None, false, None));
      }
      processingMessage := if processingMessage.Some? then Some(processingMessage.value.(error := Some(chatError))) else None;
    }

    method GenerateAnswer(request: Request, transport: Transport, run: StreamRun, ts: Timestamps)
      requires Valid()
      modifies this
      ensures State() == GenerateAnswerSt(old(State()), request, transport, run, ts, invalidRequestError, apiErrorMessage)
      ensures Valid()
    {
      if request.question != "" {
        var captured := processingMessage;
        BeforeTransport(request, ts.question);
        var thrown: Option<Thrown>;
        match transport {
          case Rejected(e) =>
            thrown := Some(e);
          case Delivered(response) =>
            isAwaitingResponse := false;
            thrown := ProcessResponse(response, false, request.stream, ts.answer, run);
        }
        if thrown.Some? {
          Catch(captured, thrown.value, ts.empty);
        }
        Clear();
      }
    }
  }

  // ---------------------------------------------------------------------
  // Properties of generateAnswer

  /** An empty question changes nothing and calls nothing. */
  lemma EmptyQuestionIsNoOp(st: ControllerState, request: Request, transport: Transport, run: StreamRun,
                            ts: Timestamps, invalid: string, api: string)
    requires request.question == ""
    ensures GenerateAnswerSt(st, request, transport, run, ts, invalid, api) == st
  {
  }

  /** Whatever happens, a non-empty question ends with all three flags
      lowered. */
  lemma FlagsClearedAtEnd(st: ControllerState, request: Request, transport: Transport, run: StreamRun,
                          ts: Timestamps, invalid: string, api: string)
    requires request.question != ""
    ensures var r := GenerateAnswerSt(st, request, transport, run, ts, invalid, api);
      !r.generatingAnswer && !r.isAwaitingResponse && !r.isProcessingResponse
  {
  }

  /** At the transport call the controller is generating and awaiting, and
      no message is being shown; a chat request has posted the user message
      under the next id just before. */
  lemma StateAtTransportCall(st: ControllerState, request: Request, timestamp: string)
    ensures var b := BeforeTransportSt(st, request, timestamp);
      && b.generatingAnswer && b.isAwaitingResponse && b.processingMessage == None
      && b.isProcessingResponse == st.isProcessingResponse
      && b.aborts == st.aborts && b.current == st.current
      && b.nextId == (if request.kind == Chat then st.nextId + 1 else st.nextId)
  {
  }

  /** The user message a chat request posts carries the question as its
      only text, no steps, citations or follow-ups, and is marked as the
      user's. */
  lemma UserMessagePostedFirst(st: ControllerState, question: string, timestamp: string)
    ensures var s1 := ProcessResponseSt(st, TextResponse(question), true, false, timestamp, StreamRun(None, false, None));
      && s1.thrown == None
      && s1.st.processingMessage == Some(UserMessage(st.nextId, question, timestamp))
      && var m := s1.st.processingMessage.value;
         m.isUserMessage && m.text == [TextEntry(question, [])] && m.citations == [] && m.followupQuestions == []
         && m.error == None
  {
  }

  /** A non-streamed completion is shown as the analysed content: the cut
      text with its steps, its citation list and follow-ups, `thoughts`
      defaulting to "" and `dataPoints` to []; the flags end lowered and no
      error is attached. */
  lemma NonStreamedAnswer(st: ControllerState, request: Request, c: Completion, run: StreamRun,
                          ts: Timestamps, invalid: string, api: string)
    requires request.question != "" && !request.stream
    ensures var r := GenerateAnswerSt(st, request, Delivered(CompletionResponse(Some(c))), run, ts, invalid, api);
      var a := Analysis(c.content);
      && r.processingMessage.Some?
      && var m := r.processingMessage.value;
         && m.text == [TextEntry(a.replacedText, a.followingSteps)]
         && m.citations == a.citations && m.followupQuestions == a.followupQuestions
         && !m.isUserMessage && m.error == None
         && m.thoughts == Some(if c.context.Some? && c.context.value.thoughts.Some? then c.context.value.thoughts.value else "")
         && m.dataPoints == Some(if c.context.Some? && c.context.value.dataPoints.Some? then c.context.value.dataPoints.value else [])
         && m.id == (if request.kind == Chat then st.nextId + 1 else st.nextId)
  {
  }

  /** A streamed answer starts from an empty assistant message; before
      the parser runs, `isProcessingResponse` is raised and a fresh,
      unaborted controller is made current, so `cancelRequest` then aborts
      that one and no earlier controller. */
  lemma StreamedAnswerSetup(st: ControllerState, m: ChatMessage)
    requires ValidState(st)
    ensures var s := StreamStartSt(st, m);
      && ValidState(s) && s.isProcessingResponse && s.processingMessage == Some(m)
      && s.aborts == st.aborts + [false] && s.current == |st.aborts|
      && var c := CancelSt(s);
         c.aborts == st.aborts + [true]
  {
  }

  /** The message a streamed response starts from has an empty text value. */
  lemma StreamedMessageIsEmpty(st: ControllerState, response: Response, timestamp: string, run: StreamRun)
    requires !response.TextResponse?
    ensures var m := NewMessage(st.nextId, "", [], [], [], timestamp, false, None, None);
      && ProcessResponseSt(st, response, false, true, timestamp, run) == StreamEndSt(StreamStartSt(st, m), run)
      && m.text == [TextEntry("", [])]
  {
  }

  /** Error mapping: code 400 gives the invalid-request message, any other
      code or none the API error message. When the transport rejects, the
      outcome depends on the message captured when the call started: with
      none, an empty assistant message carrying the error is shown; with
      one, the message was already cleared and none is shown. */
  lemma TransportErrorOutcome(st: ControllerState, request: Request, e: Thrown, run: StreamRun,
                              ts: Timestamps, invalid: string, api: string)
    requires request.question != ""
    ensures forall msg :: ErrorMessage(ResponseError(ChatResponseError(msg, 400)), invalid, api) == invalid
    ensures forall msg, code :: code != 400 ==> ErrorMessage(ResponseError(ChatResponseError(msg, code)), invalid, api) == api
    ensures ErrorMessage(OtherError, invalid, api) == api
    ensures var r := GenerateAnswerSt(st, request, Rejected(e), run, ts, invalid, api);
      var id := if request.kind == Chat then st.nextId + 1 else st.nextId;
      && (st.processingMessage.None? ==>
            r.processingMessage == Some(NewMessage(id, "", [], [], [], ts.empty, false, None, None)
                                          .(error := Some(ChatError(ErrorMessage(e, invalid, api))))))
      && (st.processingMessage.Some? ==> r.processingMessage == None)
  {
  }

  /** A completion body without `choices[0].message` throws inside
      `processResponse` with no code, so it is reported as an API error when
      no message was captured at the start of the call; when one was, the
      error message is posted nowhere and no message is left. */
  lemma MissingChoiceIsApiError(st: ControllerState, request: Request, run: StreamRun,
                                ts: Timestamps, invalid: string, api: string)
    requires request.question != "" && !request.stream
    ensures var r := GenerateAnswerSt(st, request, Delivered(CompletionResponse(None)), run, ts, invalid, api);
      && (st.processingMessage.None? ==>
            && r.processingMessage.Some?
            && r.processingMessage.value.error == Some(ChatError(api)))
      && (st.processingMessage.Some? ==> r.processingMessage == None)
  {
  }

  /** A stream parser that throws: the error is attached to the streamed
      message (its last chunk, if any) when a message was captured at the
      start of the call; when none was, that message is replaced by an
      empty one that carries the error. */
  lemma StreamFailureOutcome(st: ControllerState, request: Request, run: StreamRun,
                             ts: Timestamps, invalid: string, api: string)
    requires request.question != "" && request.stream && run.thrown.Some?
    ensures var r := GenerateAnswerSt(st, request, Delivered(StreamResponse), run, ts, invalid, api);
      var id := if request.kind == Chat then st.nextId + 1 else st.nextId;
      var chatError := Some(ChatError(ErrorMessage(run.thrown.value, invalid, api)));
      var streamed := NewMessage(id, "", [], [], [], ts.answer, false, None, None);
      var shown := if run.lastChunk.Some? then run.lastChunk.value else streamed;
      && (st.processingMessage.Some? ==> r.processingMessage == Some(shown.(error := chatError)))
      && (st.processingMessage.None? ==>
            r.processingMessage == Some(NewMessage(id + 1, "", [], [], [], ts.empty, false, None, None).(error := chatError)))
      && |r.aborts| == |st.aborts| + 1 && r.current == |st.aborts|
  {
  }

  // ---------------------------------------------------------------------
  // The error lost on a later question

  /** The catch block's guard reads the message captured when the call
      started, but `clear()` never drops a message, so from the second
      question on the captured one is the previous answer: a rejected
      second question leaves no message, and its error is shown nowhere. */
  lemma ErrorLostOnSecondQuestion(request: Request, answer: string, e: Thrown, run: StreamRun,
                                  ts1: Timestamps, ts2: Timestamps, invalid: string, api: string)
    requires request.question != ""
    ensures var st1 := GenerateAnswerSt(InitialState(), request, Delivered(TextResponse(answer)), run, ts1, invalid, api);
      && st1.processingMessage.Some? && st1.processingMessage.value.error == None
      && GenerateAnswerSt(st1, request, Rejected(e), run, ts2, invalid, api).processingMessage == None
  {
  }

  /** `generateAnswer` with the guard the catch block evidently intends:
      it asks whether a message is shown at the moment of the error, so an
      empty one is posted exactly when there is none to carry it. */
  function GenerateAnswerShowingErrorSt(st: ControllerState, request: Request, transport: Transport, run: StreamRun,
                                        ts: Timestamps, invalidRequestError: string, apiErrorMessage: string): ControllerState
  {
    if request.question == "" then st
    else
      var st1 := BeforeTransportSt(st, request, ts.question);
      var step := match transport
        case Rejected(e) => Step(st1, Some(e))
        case Delivered(response) =>
          ProcessResponseSt(st1.(isAwaitingResponse := false), response, false, request.stream, ts.answer, run);
      var st2 := if step.thrown.Some? then CatchSt(step.st, step.st.processingMessage, step.thrown.value, ts.empty,
                                                  invalidRequestError, apiErrorMessage)
                 else step.st;
      ClearSt(st2)
  }

  /** With that guard, every error is shown: a rejection, a missing choice
      or a failing stream ends with a message carrying the mapped error,
      whatever message was shown before; a call that throws nothing ends as
      it does in `generateAnswer`. */
  lemma ErrorAlwaysShown(st: ControllerState, request: Request, transport: Transport, run: StreamRun,
                         ts: Timestamps, invalid: string, api: string)
    requires request.question != ""
    ensures var r := GenerateAnswerShowingErrorSt(st, request, transport, run, ts, invalid, api);
      && (transport.Rejected? ==>
            r.processingMessage.Some? && r.processingMessage.value.error == Some(ChatError(ErrorMessage(transport.error, invalid, api))))
      && (transport == Delivered(CompletionResponse(None)) && !request.stream ==>
            r.processingMessage.Some? && r.processingMessage.value.error == Some(ChatError(api)))
      && (transport == Delivered(StreamResponse) && request.stream && run.thrown.Some? ==>
            r.processingMessage.Some? && r.processingMessage.value.error == Some(ChatError(ErrorMessage(run.thrown.value, invalid, api))))
      && (transport.Delivered? && (transport.response.TextResponse? || (!request.stream && transport.response.CompletionResponse? && transport.response.message.Some?)) ==>
            r == GenerateAnswerSt(st, request, transport, run, ts, invalid, api))
  {
  }
}
