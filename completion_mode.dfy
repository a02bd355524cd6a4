/**
 * `CompletionMode`: the inline-completion mode of an editor. A text change
 * either schedules a cached completion for rendering or schedules a request;
 * the request's streamed answers are cached and rendered; Tab, Esc and caret
 * moves close the suggestion. The executor, the network and the rendering
 * layer are outside the model: a scheduled task is recorded, the answers of
 * collaborators arrive as parameters, and the layout keeps only the
 * completion it shows.
 */
module CompletionModes {
  import opened Optional
  import opened CompletionStructs
  import opened Inference
  import Cache

  /** The part of an IDE document event the filters read. */
  datatype DocumentEvent = DocumentEvent(offset: int, oldLength: int, newLength: int)

  /** `DocumentEventExtra`: the event (absent on a forced request), whether it is forced, and the offset correction. */
  datatype DocumentEventExtra = DocumentEventExtra(event: Option<DocumentEvent>, force: bool, offsetCorrection: int)

  /** What the editor shows at the moment it is asked: text, modification stamp and caret offset. */
  datatype EditorView = EditorView(text: string, modificationStamp: int, caretOffset: int)

  /** `EditorState`: the snapshot a request or a render is made for. */
  datatype EditorState = EditorState(modificationStamp: int, offset: int, text: string)

  /** What a text change schedules. */
  datatype Task =
    | RenderTask(state: EditorState, completion: Completion)
    | ProcessTask(state: EditorState, force: bool, debounceMs: int)

  /** `AsyncCompletionLayout`, reduced to the completion it last showed. */
  datatype CompletionLayout = CompletionLayout(lastCompletionData: Option<Completion>)

  /**
   * The answers of collaborators for one text change: whether the document
   * has a file, whether privacy is disabled for it, whether
   * `shouldIgnoreChange` holds, whether the text state is valid, and whether
   * a request could be created.
   */
  datatype Environment = Environment(
    hasActiveFile: bool,
    privacyDisabled: bool,
    ignoreChange: bool,
    helperValid: bool,
    requestCreated: bool)

  const FORCED_MAX_TOKENS: int := 512
  const PARAMETERS_ERROR: string := "Parameters are not correct"

  // ---------------------------------------------------------------------
  // Decisions, as functions
  // ---------------------------------------------------------------------

  /** The snapshot of a non-forced change, or `None` when the event lies past the text or changes nothing. */
  function ChangeSnapshot(ev: DocumentEvent, offsetCorrection: int, editor: EditorView): (r: Option<EditorState>)
    ensures r.Some? <==> ev.offset + ev.newLength <= |editor.text| && ev.newLength + ev.oldLength > 0
    ensures r.Some? ==> && r.value.offset == ev.offset + ev.newLength + offsetCorrection
                        && r.value.text == editor.text
                        && r.value.modificationStamp == editor.modificationStamp
  {
    if ev.offset + ev.newLength > |editor.text| then None
    else if ev.newLength + ev.oldLength <= 0 then None
    else Some(EditorState(editor.modificationStamp, ev.offset + ev.newLength + offsetCorrection, editor.text))
  }

  /** What `onTextChange` schedules, or `None` when it returns early. */
  function PlanTextChange(status: ConnectionStatus, e: DocumentEventExtra, editor: EditorView,
                          env: Environment, cache: Cache.CompletionCache, debounceMs: int): (r: Option<Task>)
    reads cache
    ensures status == DISCONNECTED || !env.hasActiveFile || env.privacyDisabled ==> r == None
    ensures r.Some? && !e.force ==>
              && e.event.Some?
              && ChangeSnapshot(e.event.value, e.offsetCorrection, editor) == Some(r.value.state)
    ensures r.Some? && r.value.RenderTask? ==>
              && !e.force
              && cache.GetCompletion(r.value.state.text, r.value.state.offset) == Some(r.value.completion)
    ensures r.Some? && r.value.ProcessTask? && !e.force ==>
              && cache.GetCompletion(r.value.state.text, r.value.state.offset).None?
              && r.value == ProcessTask(r.value.state, false, debounceMs)
    ensures r.Some? && e.force ==>
              r == Some(ProcessTask(EditorState(editor.modificationStamp, editor.caretOffset, editor.text), true, 0))
  {
    if !env.hasActiveFile || env.privacyDisabled || status == DISCONNECTED then None
    else if !e.force then
      match e.event
      case None => None
      case Some(ev) =>
        match ChangeSnapshot(ev, e.offsetCorrection, editor)
        case None => None
        case Some(state) =>
          match cache.GetCompletion(state.text, state.offset)
          case Some(hit) => Some(RenderTask(state, hit))
          case None =>
            if env.ignoreChange || !env.helperValid || !env.requestCreated then None
            else Some(ProcessTask(state, false, debounceMs))
    else
      var state := EditorState(editor.modificationStamp, editor.caretOffset, editor.text);
      if !env.helperValid || !env.requestCreated then None
      else Some(ProcessTask(state, true, 0))
  }

  /** The three ways `process` can go before it sends anything. */
  datatype Gate = NotReady | SkipAfterOneLineAccept | Send

  /**
   * A forced request is always sent; otherwise the state must be ready, and
   * a single-line request right after a one-line accept is skipped once.
   */
  function ProcessGate(force: bool, ready: bool, multiline: bool, hasOneLineCompletionBefore: bool): (g: Gate)
    ensures g == Send <==> force || (ready && (multiline || !hasOneLineCompletionBefore))
    ensures g == SkipAfterOneLineAccept <==> !force && ready && !multiline && hasOneLineCompletionBefore
  {
    if !force && !ready then NotReady
    else if !force && !multiline && hasOneLineCompletionBefore then SkipAfterOneLineAccept
    else Send
  }

  /** What one streamed answer does. */
  datatype StreamStep = Ignored | BadParameters | NoHeadMidTail | Senseless | Accepted

  /**
   * An answer after the request was closed is ignored; one without a status
   * is an error; one without a head/mid/tail for the cursor file, or whose
   * completion does not make sense, is dropped; any other is cached and
   * rendered.
   */
  function ClassifyStreamed(inProgress: bool, prediction: StreamedPrediction, cursorFile: string,
                            makesSense: bool): (step: StreamStep)
    ensures step == Accepted <==>
              && inProgress && prediction.status.Some?
              && |prediction.choices| > 0 && cursorFile in prediction.choices[0].filesHeadMidTail
              && makesSense
    ensures step == BadParameters <==> inProgress && prediction.status.None?
  {
    if !inProgress then Ignored
    else if prediction.status.None? then BadParameters
    else if |prediction.choices| == 0 || cursorFile !in prediction.choices[0].filesHeadMidTail then NoHeadMidTail
    else if !makesSense then Senseless
    else Accepted
  }

  /** After Tab: the accepted text was one line and ended at the end of a line of the original text. */
  function OneLineAccepted(originalText: string, visualizedEndIndex: nat, isSingleLineComplete: bool): (b: bool)
    ensures b ==> isSingleLineComplete
    ensures b <==> isSingleLineComplete && (visualizedEndIndex < |originalText| ==> originalText[visualizedEndIndex] == '\n')
  {
    var nextLine := visualizedEndIndex >= |originalText| || originalText[visualizedEndIndex] == '\n';
    isSingleLineComplete && nextLine
  }

  // ---------------------------------------------------------------------
  // The mode
  // ---------------------------------------------------------------------

  class CompletionMode {
    const ctx: InferenceGlobalContext
    const cache: Cache.CompletionCache
    var needToRender: bool
    var processTask: Option<Task>
    var completionLayout: Option<CompletionLayout>
    var hasOneLineCompletionBefore: bool
    var completionInProgress: bool

    constructor (ctx: InferenceGlobalContext, cache: Cache.CompletionCache, needToRender: bool)
      ensures this.ctx == ctx && this.cache == cache && this.needToRender == needToRender
      ensures processTask == None && completionLayout == None
      ensures !hasOneLineCompletionBefore && !completionInProgress
    {
      this.ctx := ctx;
      this.cache := cache;
      this.needToRender := needToRender;
      processTask := None;
      completionLayout := None;
      hasOneLineCompletionBefore := false;
      completionInProgress := false;
    }

    /** `onTextChange`: schedules what `PlanTextChange` says, and changes nothing else. */
    method OnTextChange(e: DocumentEventExtra, editor: EditorView, env: Environment, debounceMs: int)
      modifies this`processTask
      ensures var plan := PlanTextChange(old(ctx.status), e, editor, env, cache, debounceMs);
              processTask == if plan.Some? then plan else old(processTask)
    {
      if !env.hasActiveFile {
        return;
      }
      if env.privacyDisabled {
        return;
      }
      if ctx.status == DISCONNECTED {
        return;
      }
      var maybeState: Option<EditorState> := None;
      var delay: int;
      if !e.force {
        if e.event.None? {
          return;
        }
        var docEvent := e.event.value;
        if docEvent.offset + docEvent.newLength > |editor.text| {
          return;
        }
        if docEvent.newLength + docEvent.oldLength <= 0 {
          return;
        }
        var state := EditorState(editor.modificationStamp, docEvent.offset + docEvent.newLength + e.offsetCorrection,
                                 editor.text);
        maybeState := Some(state);
        var completionData := cache.GetCompletion(state.text, state.offset);
        if completionData.Some? {
          processTask := Some(RenderTask(state, completionData.value));
          return;
        }
        if env.ignoreChange {
          return;
        }
        delay := debounceMs;
      } else {
        maybeState := Some(EditorState(editor.modificationStamp, editor.caretOffset, editor.text));
        delay := 0;
      }
      if maybeState.None? {
        return;
      }
      var state := maybeState.value;
      if !env.helperValid {
        return;
      }
      if !env.requestCreated {
        return;
      }
      processTask := Some(ProcessTask(state, e.force, delay));
    }

    /**
     * `renderCompletion`: drops the completion when the document or the
     * caret moved since the snapshot, or when no task is active; otherwise
     * the layout shows it.
     */
    method RenderCompletion(editor: EditorView, state: EditorState, completionData: Completion)
      modifies this`completionLayout
      ensures var current := state.modificationStamp == editor.modificationStamp
                           && state.offset == editor.caretOffset
                           && processTask.Some?;
              completionLayout == if current then Some(CompletionLayout(Some(completionData)))
                                  else old(completionLayout)
    {
      var invalidStamp := state.modificationStamp != editor.modificationStamp;
      var invalidOffset := state.offset != editor.caretOffset;
      if invalidStamp || invalidOffset {
        return;
      }
      if processTask.None? {
        return;
      }
      completionLayout := Some(CompletionLayout(Some(completionData)));
    }

    /**
     * `process` up to the fetch: the gate, then the request parameters and
     * the PENDING status. `ready`, `multiline` and `stopTokens` are those of
     * the completion state built for the snapshot.
     */
    method Process(body: RequestBody, force: bool, ready: bool, multiline: bool, stopTokens: seq<string>)
      modifies this`hasOneLineCompletionBefore, this`completionInProgress, body`maxTokens, body`stopTokens, ctx`status
      ensures var g := ProcessGate(force, ready, multiline, old(hasOneLineCompletionBefore));
              && hasOneLineCompletionBefore == (old(hasOneLineCompletionBefore) && g != SkipAfterOneLineAccept)
              && (g == Send ==>
                    && body.maxTokens == (if force then FORCED_MAX_TOKENS else old(body.maxTokens))
                    && body.stopTokens == stopTokens
                    && ctx.status == PENDING
                    && completionInProgress)
              && (g != Send ==>
                    && body.maxTokens == old(body.maxTokens) && body.stopTokens == old(body.stopTokens)
                    && ctx.status == old(ctx.status)
                    && completionInProgress == old(completionInProgress))
    {
      if !force && !ready {
        return;
      }
      if !force && !multiline && hasOneLineCompletionBefore {
        hasOneLineCompletionBefore := false;
        return;
      }
      if force {
        body.maxTokens := FORCED_MAX_TOKENS;
      }
      body.stopTokens := stopTokens;
      ctx.status := PENDING;
      completionInProgress := true;
    }

    /** The end-of-stream callback: the connection is healthy again. */
    method OnDataReceiveEnded()
      modifies ctx
      ensures ctx.status == CONNECTED && ctx.lastErrorMsg == None
    {
      ctx.status := CONNECTED;
      ctx.lastErrorMsg := None;
    }

    /**
     * The per-answer callback. `completionData` is what the completion state
     * makes of the answer's head/mid/tail for the cursor file, `makesSense`
     * its `isMakeSense()`, and `beforeLeft` its reversed text left of the
     * cursor.
     */
    method OnPrediction(prediction: StreamedPrediction, cursorFile: string, completionData: Completion,
                        makesSense: bool, beforeLeft: string, editor: EditorView, state: EditorState)
      requires cache.Valid()
      requires Anchored(completionData) && |beforeLeft| <= completionData.startIndex
      modifies ctx, cache, this`completionLayout
      ensures cache.Valid()
      ensures var step := ClassifyStreamed(completionInProgress, prediction, cursorFile, makesSense);
              && (step == BadParameters ==> ctx.status == ERROR && ctx.lastErrorMsg == Some(PARAMETERS_ERROR))
              && (step != BadParameters ==> ctx.status == old(ctx.status) && ctx.lastErrorMsg == old(ctx.lastErrorMsg))
              && (step == Accepted ==>
                    cache.Contents() == Cache.AfterAdd(old(cache.Contents()), completionData, beforeLeft,
                                                       Cache.DEFAULT_MAX_SIZE))
              && (step != Accepted ==>
                    cache.Contents() == old(cache.Contents()) && completionLayout == old(completionLayout))
              && (step == Accepted ==>
                    var current := state.modificationStamp == editor.modificationStamp
                                && state.offset == editor.caretOffset
                                && processTask.Some?;
                    completionLayout == if current then Some(CompletionLayout(Some(completionData)))
                                        else old(completionLayout))
    {
      if !completionInProgress {
        return;
      }
      if prediction.status.None? {
        ctx.status := ERROR;
        ctx.lastErrorMsg := Some(PARAMETERS_ERROR);
        return;
      }
      if |prediction.choices| == 0 || cursorFile !in prediction.choices[0].filesHeadMidTail {
        return;
      }
      if !makesSense {
        return;
      }
      cache.AddCompletion(completionData, beforeLeft, Cache.DEFAULT_MAX_SIZE);
      RenderCompletion(editor, state, completionData);
    }

    /** Interrupted while waiting for the answer. */
    method OnInterrupted()
      modifies this`completionInProgress, this`processTask, this`completionLayout, ctx`status
      ensures ctx.status == CONNECTED
      ensures !completionInProgress && processTask == None && completionLayout == None
    {
      ctx.status := CONNECTED;
      CancelOrClose();
    }

    /** The fetch failed: the cause's message becomes the error. */
    method OnExecutionException(causeMessage: Option<string>)
      modifies this`completionInProgress, this`processTask, this`completionLayout, ctx
      ensures ctx.status == ERROR && ctx.lastErrorMsg == causeMessage
      ensures !completionInProgress && processTask == None && completionLayout == None
    {
      CancelOrClose();
      ctx.status := ERROR;
      ctx.lastErrorMsg := causeMessage;
    }

    /**
     * Any other exception: the status is set to ERROR and then reset by
     * `cancelOrClose`, so the user sees CONNECTED together with the message.
     */
    method OnOtherException(message: Option<string>)
      modifies this`completionInProgress, this`processTask, this`completionLayout, ctx
      ensures ctx.status == CONNECTED && ctx.lastErrorMsg == message
      ensures !completionInProgress && processTask == None && completionLayout == None
    {
      ctx.status := ERROR;
      ctx.lastErrorMsg := message;
      CancelOrClose();
    }

    /**
     * `onTabPressed`: with a layout, remembers whether a one-line completion
     * ending at a line end was accepted; the layout is gone afterwards.
     * `visualizedEndIndex` and `isSingleLineComplete` are those of the
     * layout's last completion.
     */
    method OnTabPressed(visualizedEndIndex: nat, isSingleLineComplete: bool)
      modifies this`hasOneLineCompletionBefore, this`completionLayout
      ensures completionLayout == None
      ensures hasOneLineCompletionBefore ==
                if old(completionLayout).Some? && old(completionLayout).value.lastCompletionData.Some? then
                  OneLineAccepted(old(completionLayout).value.lastCompletionData.value.originalText,
                                  visualizedEndIndex, isSingleLineComplete)
                else old(hasOneLineCompletionBefore)
    {
      if completionLayout.Some? {
        var layout := completionLayout.value;
        if layout.lastCompletionData.Some? {
          var it := layout.lastCompletionData.value;
          var nextLine := visualizedEndIndex >= |it.originalText| || it.originalText[visualizedEndIndex] == '\n';
          hasOneLineCompletionBefore := isSingleLineComplete && nextLine;
        }
      }
      completionLayout := None;
    }

    /** `onEscPressed`, `caretPositionChanged`, `cleanup` and `beforeDocumentChangeNonBulk` all close. */
    method OnEscPressed()
      modifies this`completionInProgress, this`processTask, this`completionLayout, ctx`status
      ensures ctx.status == if old(ctx.status) == DISCONNECTED then DISCONNECTED else CONNECTED
      ensures !completionInProgress && processTask == None && completionLayout == None
    {
      CancelOrClose();
    }

    /**
     * `cancelOrClose`: the connection goes back to CONNECTED unless it is
     * DISCONNECTED, and the request, its task and the layout are dropped.
     */
    method CancelOrClose()
      modifies this`completionInProgress, this`processTask, this`completionLayout, ctx`status
      ensures ctx.status == if old(ctx.status) == DISCONNECTED then DISCONNECTED else CONNECTED
      ensures !completionInProgress && processTask == None && completionLayout == None
    {
      if ctx.status != DISCONNECTED {
        ctx.status := CONNECTED;
      }
      completionInProgress := false;
      processTask := None;
      completionLayout := None;
    }
  }
}
