/**
 * The shared inference state both editing modes update: the connection
 * status shown to the user with its last error message, and the body of a
 * request about to be sent. The HTTP transport that sends it is not part of
 * this model.
 */
module Inference {
  import opened Optional

  datatype ConnectionStatus = CONNECTED | DISCONNECTED | PENDING | ERROR

  /** `InferenceGlobalContext`: one per application. */
  class InferenceGlobalContext {
    var status: ConnectionStatus
    var lastErrorMsg: Option<string>

    constructor (status: ConnectionStatus)
      ensures this.status == status && lastErrorMsg == None
    {
      this.status := status;
      lastErrorMsg := None;
    }
  }

  /** The fields of a request body that the modes set or read. */
  class RequestBody {
    var stopTokens: seq<string>
    var maxTokens: int
    var maxEdits: int
    var functionName: string
    var cursorFile: string
    /** The file texts sent with the request, by file name. */
    var sources: map<string, string>

    constructor (functionName: string, cursorFile: string, sources: map<string, string>, maxTokens: int)
      ensures this.functionName == functionName && this.cursorFile == cursorFile
      ensures this.sources == sources && this.maxTokens == maxTokens
      ensures stopTokens == [] && maxEdits == 0
    {
      this.functionName := functionName;
      this.cursorFile := cursorFile;
      this.sources := sources;
      this.maxTokens := maxTokens;
      stopTokens := [];
      maxEdits := 0;
    }
  }

  /** One choice of a streamed infill answer: the head/mid/tail split per file. */
  datatype HeadMidTail = HeadMidTail(head: int, mid: string, tail: int)
  datatype StreamedChoice = StreamedChoice(filesHeadMidTail: map<string, HeadMidTail>)
  datatype StreamedPrediction = StreamedPrediction(status: Option<string>, choices: seq<StreamedChoice>)

  /** One choice of a diff answer: the new text per file and why generation stopped. */
  datatype Choice = Choice(files: map<string, string>, finishReason: Option<string>)
  datatype Prediction = Prediction(status: Option<string>, choices: seq<Choice>)
}
