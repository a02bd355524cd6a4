/**
 * `DiffMode`: asks the model to rewrite a selection (or the code at the
 * cursor, when a highlight started it), classifies the answer into a
 * connection status and message, and keeps a layout with the before and
 * after lines of the cursor file. The line diff itself, the dialog, the
 * rainbow animation and rendering are outside the model; where the source
 * hands control back to the mode provider, the methods return that request.
 */
module Diff {
  import opened Optional
  import opened Inference
  import opened DiffIntents
  import CompletionUtils

  const FUNCTION_SELECTION: string := "diff-selection"
  const FUNCTION_AT_CURSOR: string := "diff-atcursor"
  const DIFF_MAX_TOKENS: int := 550
  const PARAMETERS_ERROR: string := "Parameters are not correct"
  const NO_PREDICTED_DATA: string := "Request was succeeded but there is no predicted data"

  /** `HighlightContext`: the intent a highlight chose and its range. */
  datatype HighlightContext = HighlightContext(entry: DiffIntentEntry, startOffset: int, endOffset: int)

  /**
   * `DiffLayout`, reduced to what it is built from: the request's function
   * name and the cursor file's lines before and after.
   */
  datatype DiffLayout = DiffLayout(functionName: string, before: seq<string>, after: seq<string>)

  /** A highlight asks for the code at the cursor; a selection asks for the selection. */
  function FunctionNameFor(highlight: Option<HighlightContext>): (name: string)
    ensures name == FUNCTION_AT_CURSOR <==> highlight.Some?
    ensures name == FUNCTION_SELECTION <==> highlight.None?
  {
    if highlight.None? then FUNCTION_SELECTION else FUNCTION_AT_CURSOR
  }

  /** One edit for a request at the cursor, ten for any other. */
  function MaxEditsFor(functionName: string): (n: int)
    ensures n == 1 <==> functionName == FUNCTION_AT_CURSOR
    ensures n == 10 <==> functionName != FUNCTION_AT_CURSOR
  {
    if functionName == FUNCTION_AT_CURSOR then 1 else 10
  }

  /** What an answer amounts to. */
  datatype Outcome = Rejected | NoData | Predicted(text: string)

  /**
   * An answer without a status, or with status "error", is rejected; one
   * whose first choice lacks the cursor file's text or a finish reason has
   * no data; otherwise the first choice's text for the cursor file is the
   * prediction.
   */
  function Classify(p: Prediction, cursorFile: string): (o: Outcome)
    ensures o == Rejected <==> p.status.None? || p.status == Some("error")
    ensures o.Predicted? <==>
              && o != Rejected && p.status.Some? && p.status != Some("error")
              && |p.choices| > 0 && cursorFile in p.choices[0].files && p.choices[0].finishReason.Some?
    ensures o.Predicted? ==> o.text == p.choices[0].files[cursorFile]
  {
    if p.status.None? || p.status == Some("error") then Rejected
    else if |p.choices| == 0 || cursorFile !in p.choices[0].files || p.choices[0].finishReason.None? then NoData
    else Predicted(p.choices[0].files[cursorFile])
  }

  /** The status an outcome leaves: only a rejection is an error. */
  function StatusAfter(o: Outcome): (s: ConnectionStatus)
    ensures s == ERROR <==> o == Rejected
    ensures s == CONNECTED <==> o != Rejected
  {
    if o == Rejected then ERROR else CONNECTED
  }

  /** The message an outcome leaves: none exactly for a prediction. */
  function MessageAfter(o: Outcome): (m: Option<string>)
    ensures m.None? <==> o.Predicted?
    ensures o == Rejected ==> m == Some(PARAMETERS_ERROR)
    ensures o == NoData ==> m == Some(NO_PREDICTED_DATA)
  {
    match o
    case Rejected => Some(PARAMETERS_ERROR)
    case NoData => Some(NO_PREDICTED_DATA)
    case Predicted(_) => None
  }

  /** `cancel` leaves DISCONNECTED and ERROR alone and turns any other status into CONNECTED. */
  function StatusAfterCancel(s: ConnectionStatus): (r: ConnectionStatus)
    ensures s == DISCONNECTED || s == ERROR ==> r == s
    ensures s != DISCONNECTED && s != ERROR ==> r == CONNECTED
    ensures r != PENDING
  {
    if s != DISCONNECTED && s != ERROR then CONNECTED else s
  }

  /** What `actionPerformed` hands to `process`: the function name and, for a new request, the intent. */
  datatype Action = Action(functionName: string, entry: Option<DiffIntentEntry>)

  class DiffMode {
    const ctx: InferenceGlobalContext
    var diffLayout: Option<DiffLayout>
    var needRainbowAnimation: bool
    var lastFromHL: bool
    /** Whether a `process` run has been submitted. */
    var processScheduled: bool

    constructor (ctx: InferenceGlobalContext)
      ensures this.ctx == ctx && diffLayout == None
      ensures !needRainbowAnimation && !lastFromHL && !processScheduled
    {
      this.ctx := ctx;
      diffLayout := None;
      needRainbowAnimation := false;
      lastFromHL := false;
      processScheduled := false;
    }

    /**
     * `cancel`: the status rule of `StatusAfterCancel`, no layout, no
     * animation; with an editor, the mode provider is asked to switch back
     * to the default mode.
     */
    method Cancel(editorPresent: bool) returns (switchBack: bool)
      modifies ctx`status, this`needRainbowAnimation, this`diffLayout
      ensures ctx.status == StatusAfterCancel(old(ctx.status))
      ensures diffLayout == None && !needRainbowAnimation
      ensures switchBack == editorPresent
    {
      if ctx.status != DISCONNECTED && ctx.status != ERROR {
        ctx.status := CONNECTED;
      }
      needRainbowAnimation := false;
      diffLayout := None;
      switchBack := editorPresent;
    }

    /** `onTabPressed`: the layout is applied and dropped; a highlight-started diff re-runs the highlight. */
    method OnTabPressed() returns (rerunHighlight: bool)
      modifies this`diffLayout
      ensures diffLayout == None
      ensures rerunHighlight == lastFromHL
    {
      diffLayout := None;
      rerunHighlight := lastFromHL;
    }

    /** `onEscPressed`: cancel with the editor, and forget that a highlight started the diff. */
    method OnEscPressed() returns (switchBack: bool)
      modifies ctx`status, this`needRainbowAnimation, this`diffLayout, this`lastFromHL
      ensures ctx.status == StatusAfterCancel(old(ctx.status))
      ensures diffLayout == None && !needRainbowAnimation && !lastFromHL
      ensures switchBack
    {
      switchBack := Cancel(true);
      lastFromHL := false;
    }

    /**
     * `actionPerformed`. `hasActiveFile` is whether the document has a file,
     * `dialogEntry` the dialog's answer (`None` when the user closed it),
     * `requestCreated` whether a request could be built. Without a layout,
     * or with a highlight, a new request is made; a dialog entry is pushed
     * to the history, and the mode provider is asked to switch to the diff
     * mode (`switchToDiff`). Otherwise the layout's request is asked again.
     */
    method ActionPerformed(hasActiveFile: bool, highlight: Option<HighlightContext>,
                           dialogEntry: Option<DiffIntentEntry>, requestCreated: bool,
                           intents: DiffIntentProvider)
      returns (action: Option<Action>, switchToDiff: bool)
      modifies this`lastFromHL, this`diffLayout, this`needRainbowAnimation, this`processScheduled, intents`history
      ensures !hasActiveFile || old(ctx.status) == DISCONNECTED ==> action == None
      ensures action.None? ==> && processScheduled == old(processScheduled)
                               && needRainbowAnimation == old(needRainbowAnimation)
                               && diffLayout == old(diffLayout)
      ensures action.Some? ==> processScheduled && needRainbowAnimation
      ensures switchToDiff <==> action.Some? && (old(diffLayout).None? || highlight.Some?)
      ensures lastFromHL ==
                if !hasActiveFile || old(ctx.status) == DISCONNECTED
                   || (highlight.None? && (old(diffLayout).Some? || dialogEntry.None?))
                then old(lastFromHL)
                else highlight.Some?
      ensures action.Some? && (old(diffLayout).None? || highlight.Some?) ==>
                && action.value.functionName == FunctionNameFor(highlight)
                && lastFromHL == highlight.Some?
                && diffLayout == old(diffLayout)
                && action.value.entry == (if highlight.Some? then Some(highlight.value.entry) else dialogEntry)
      ensures action.Some? && old(diffLayout).Some? && highlight.None? ==>
                && action == Some(Action(old(diffLayout).value.functionName, None))
                && diffLayout == None && lastFromHL == old(lastFromHL)
      ensures intents.history ==
                if hasActiveFile && old(ctx.status) != DISCONNECTED && (old(diffLayout).None? || highlight.Some?)
                   && highlight.None? && dialogEntry.Some?
                then PushFront(old(intents.history), dialogEntry.value)
                else old(intents.history)
    {
      if !hasActiveFile {
        return None, false;
      }
      if ctx.status == DISCONNECTED {
        return None, false;
      }
      if diffLayout.None? || highlight.Some? {
        var functionName := if highlight.None? then FUNCTION_SELECTION else FUNCTION_AT_CURSOR;
        var entry: DiffIntentEntry;
        if highlight.None? {
          if dialogEntry.None? {
            return None, false;
          }
          entry := dialogEntry.value;
          intents.PushFrontHistoryIntent(entry);
          lastFromHL := false;
        } else {
          entry := highlight.value.entry;
          lastFromHL := true;
        }
        if !requestCreated {
          return None, false;
        }
        action := Some(Action(functionName, Some(entry)));
        switchToDiff := true;
      } else {
        var lastDiffLayout := diffLayout.value;
        action := Some(Action(lastDiffLayout.functionName, None));
        switchToDiff := false;
        diffLayout := None;
      }
      needRainbowAnimation := true;
      processScheduled := true;
    }

    /**
     * `process`: sets the request parameters, marks the request PENDING,
     * and classifies the answer. `fetched` is the answer, or `None` when no
     * request job could be started. A prediction for a file the request
     * sent yields a layout over the file's lines before and after.
     */
    method Process(body: RequestBody, fetched: Option<Prediction>)
      modifies body`stopTokens, body`maxTokens, body`maxEdits, ctx, this`diffLayout, this`needRainbowAnimation
      ensures body.stopTokens == [] && body.maxTokens == DIFF_MAX_TOKENS
      ensures body.maxEdits == MaxEditsFor(body.functionName)
      ensures fetched.None? ==> && ctx.status == PENDING && ctx.lastErrorMsg == old(ctx.lastErrorMsg)
                                && diffLayout == old(diffLayout)
                                && needRainbowAnimation == old(needRainbowAnimation)
      ensures fetched.Some? ==>
                var o := Classify(fetched.value, body.cursorFile);
                && ctx.status == StatusAfter(o)
                && ctx.lastErrorMsg == MessageAfter(o)
                && needRainbowAnimation == (old(needRainbowAnimation) && !o.Predicted?)
                && diffLayout ==
                     if o.Predicted? && body.cursorFile in body.sources then
                       Some(DiffLayout(body.functionName, CompletionUtils.Split(body.sources[body.cursorFile]),
                                       CompletionUtils.Split(o.text)))
                     else old(diffLayout)
    {
      body.stopTokens := [];
      body.maxTokens := DIFF_MAX_TOKENS;
      body.maxEdits := if body.functionName == FUNCTION_AT_CURSOR then 1 else 10;
      ctx.status := PENDING;
      if fetched.None? {
        return;
      }
      var prediction := fetched.value;
      if prediction.status.None? || prediction.status == Some("error") {
        ctx.status := ERROR;
        ctx.lastErrorMsg := Some(PARAMETERS_ERROR);
        return;
      }
      if |prediction.choices| == 0 || body.cursorFile !in prediction.choices[0].files
         || prediction.choices[0].finishReason.None? {
        ctx.status := CONNECTED;
        ctx.lastErrorMsg := Some(NO_PREDICTED_DATA);
        return;
      } else {
        ctx.status := CONNECTED;
        ctx.lastErrorMsg := None;
      }
      var predictedText := prediction.choices[0].files[body.cursorFile];
      needRainbowAnimation := false;
      if body.cursorFile !in body.sources {
        return;
      }
      var source := body.sources[body.cursorFile];
      diffLayout := Some(DiffLayout(body.functionName, CompletionUtils.Split(source),
                                    CompletionUtils.Split(predictedText)));
    }

    /** Interrupted while waiting: the animation stops and the provider switches back. */
    method OnInterrupted() returns (switchBack: bool)
      modifies this`needRainbowAnimation
      ensures !needRainbowAnimation && switchBack
    {
      needRainbowAnimation := false;
      switchBack := true;
    }

    /**
     * The fetch failed (`catchNetExceptions`), or any other exception: the
     * status is ERROR with the exception's message, and the provider
     * switches back.
     */
    method OnException(message: Option<string>) returns (switchBack: bool)
      modifies ctx
      ensures ctx.status == ERROR && ctx.lastErrorMsg == message && switchBack
    {
      ctx.status := ERROR;
      ctx.lastErrorMsg := message;
      switchBack := true;
    }
  }

  /** The three outcomes leave three distinct (status, message) pairs, so the user can tell them apart. */
  lemma OutcomesAreDistinguishable(o1: Outcome, o2: Outcome)
    requires StatusAfter(o1) == StatusAfter(o2) && MessageAfter(o1) == MessageAfter(o2)
    ensures o1 == o2 || (o1.Predicted? && o2.Predicted?)
  {
  }
}
