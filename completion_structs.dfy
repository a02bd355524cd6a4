/**
 * The records the completion cache and the completion mode exchange. Their
 * declaring file is not part of this model; only the fields the modelled
 * code reads or copies are kept.
 */
module CompletionStructs {

  /** A suggestion for `originalText` to be inserted at `startIndex`. */
  datatype Completion = Completion(
    originalText: string,
    completion: string,
    startIndex: int,
    endIndex: int,
    firstLineEndIndex: int,
    leftSymbolsToSkip: int,
    leftSymbolsToRemove: int,
    isFromCache: bool,
    createdTs: int)

  /** The cache key: equal exactly when text and offset are equal. */
  datatype CompletionHash = CompletionHash(text: string, offset: int)

  /** The key under which the cache files a completion. */
  function KeyOf(c: Completion): CompletionHash
  {
    CompletionHash(c.originalText, c.startIndex)
  }

  /** The start index lies inside the original text. */
  predicate Anchored(c: Completion)
  {
    0 <= c.startIndex <= |c.originalText|
  }

  /** The document the user obtains by accepting `c`: its completion inserted at its start index. */
  function AcceptedText(c: Completion): (doc: string)
    requires Anchored(c)
    ensures |doc| == |c.originalText| + |c.completion|
    ensures doc[..c.startIndex] == c.originalText[..c.startIndex]
    ensures doc[c.startIndex + |c.completion|..] == c.originalText[c.startIndex..]
  {
    c.originalText[..c.startIndex] + c.completion + c.originalText[c.startIndex..]
  }
}
