/**
 * Response reconciliation for "infill" completions: the editor text helper
 * (line split, current line, offset inside the line), `getChar`, and
 * `CompletionStateVsCode`, which decides from one line of text whether a
 * request is worth making, picks the stop tokens, and derives the
 * suggestion from a full predicted document by scanning both texts
 * backward from their ends (`difference`).
 */
module CompletionUtils {
  import opened Optional

  /** Documents longer than this are never sent (180 KiB of characters). */
  const MAX_TEXT_SIZE: int := 180 * 1024

  /**
   * The only string the single-line newline test rejects: the pattern
   * `/\n/g` is a JavaScript literal, so under Java's regex engine it
   * matches the four characters slash, newline, slash, `g`, and nothing else.
   */
  const SINGLE_LINE_REJECTED: string := "/\n/g"

  // ---------------------------------------------------------------------
  // Lines of a document
  // ---------------------------------------------------------------------

  /** Index of the first newline of `s` at or after `from`, or `|s|` when there is none. */
  function NextNewline(s: string, from: nat): (i: nat)
    requires from <= |s|
    ensures from <= i <= |s|
    ensures i < |s| ==> s[i] == '\n'
    ensures forall j :: from <= j < i ==> s[j] != '\n'
    decreases |s| - from
  {
    if from == |s| || s[from] == '\n' then from else NextNewline(s, from + 1)
  }

  /** The pieces of `s[from..]` between newlines, at least one. */
  function SplitFrom(s: string, from: nat): (lines: seq<string>)
    requires from <= |s|
    ensures |lines| >= 1
    decreases |s| - from
  {
    var i := NextNewline(s, from);
    if i == |s| then [s[from..]] else [s[from..i]] + SplitFrom(s, i + 1)
  }

  /** `text.split("\n")`: the pieces between newlines, at least one. */
  function Split(s: string): (lines: seq<string>)
    ensures |lines| >= 1
    ensures forall k :: 0 <= k < |lines| ==> '\n' !in lines[k]
    ensures JoinLines(lines) == s
  {
    SplitLinesHaveNoNewline(s, 0);
    SplitJoinRoundTrip(s, 0);
    assert s[0..] == s;
    SplitFrom(s, 0)
  }

  /** No split line holds a newline. */
  lemma {:induction false} SplitLinesHaveNoNewline(s: string, from: nat)
    requires from <= |s|
    ensures forall k :: 0 <= k < |SplitFrom(s, from)| ==> '\n' !in SplitFrom(s, from)[k]
    decreases |s| - from
  {
    var i := NextNewline(s, from);
    if i < |s| {
      SplitLinesHaveNoNewline(s, i + 1);
    }
  }

  /** The inverse of `Split`: the lines glued back with newlines. */
  function JoinLines(lines: seq<string>): string
    requires |lines| >= 1
  {
    if |lines| == 1 then lines[0] else lines[0] + "\n" + JoinLines(lines[1..])
  }

  /** Splitting loses nothing: joining the lines gives the text back. */
  lemma {:induction false} SplitJoinRoundTrip(s: string, from: nat)
    requires from <= |s|
    ensures JoinLines(SplitFrom(s, from)) == s[from..]
    decreases |s| - from
  {
    var i := NextNewline(s, from);
    if i < |s| {
      var rest := SplitFrom(s, i + 1);
      SplitJoinRoundTrip(s, i + 1);
      assert SplitFrom(s, from) == [s[from..i]] + rest;
      assert ([s[from..i]] + rest)[1..] == rest;
      assert JoinLines(SplitFrom(s, from)) == s[from..i] + "\n" + JoinLines(rest);
      assert s[from..] == s[from..i] + "\n" + s[i + 1..];
    }
  }

  /** The line number of `offset`, counting lines from `from` (a newline belongs to the line it ends). */
  function LineNumberFrom(s: string, from: nat, offset: nat): nat
    requires from <= offset <= |s|
    decreases |s| - from
  {
    var i := NextNewline(s, from);
    if offset <= i then 0 else 1 + LineNumberFrom(s, i + 1, offset)
  }

  /** The start offset of the line holding `offset`. */
  function LineStartFrom(s: string, from: nat, offset: nat): (start: nat)
    requires from <= offset <= |s|
    ensures from <= start <= offset
    ensures start == from || s[start - 1] == '\n'
    ensures forall j :: start <= j < offset ==> s[j] != '\n'
    decreases |s| - from
  {
    var i := NextNewline(s, from);
    if offset <= i then from else LineStartFrom(s, i + 1, offset)
  }

  /** The end offset (exclusive of the newline) of the line holding `offset`. */
  function LineEndFrom(s: string, from: nat, offset: nat): (end: nat)
    requires from <= offset <= |s|
    ensures offset <= end <= |s|
    ensures end == |s| || s[end] == '\n'
    ensures forall j :: offset <= j < end ==> s[j] != '\n'
    decreases |s| - from
  {
    var i := NextNewline(s, from);
    if offset <= i then i else LineEndFrom(s, i + 1, offset)
  }

  /** The split line at the line number of `offset` is the text between the line offsets of `offset`. */
  lemma {:induction false} CurrentLineIsSlice(s: string, from: nat, offset: nat)
    requires from <= offset <= |s|
    ensures LineNumberFrom(s, from, offset) < |SplitFrom(s, from)|
    ensures SplitFrom(s, from)[LineNumberFrom(s, from, offset)]
         == s[LineStartFrom(s, from, offset)..LineEndFrom(s, from, offset)]
    decreases |s| - from
  {
    var i := NextNewline(s, from);
    if i < offset {
      CurrentLineIsSlice(s, i + 1, offset);
    }
  }

  /** `EditorTextHelper`: the document text and the offset it was built for; every other field is derived. */
  datatype EditorTextHelper = EditorTextHelper(document: string, offset: nat)
  {
    /** The document's line queries throw for an offset past the end. */
    predicate Valid()
    {
      offset <= |document|
    }

    function Lines(): seq<string>
    {
      Split(document)
    }

    function CurrentLineNumber(): nat
      requires Valid()
    {
      LineNumberFrom(document, 0, offset)
    }

    /** `lines[currentLineNumber]`, which is the document's text of the line holding the offset. */
    function CurrentLine(): (line: string)
      requires Valid()
      ensures line == document[LineStartFrom(document, 0, offset)..LineEndFrom(document, 0, offset)]
    {
      CurrentLineIsSlice(document, 0, offset);
      Lines()[CurrentLineNumber()]
    }

    function OffsetByCurrentLine(): (k: nat)
      requires Valid()
      ensures k <= |CurrentLine()|
    {
      offset - LineStartFrom(document, 0, offset)
    }

    /** The current line left of the cursor: everything from the line start. */
    function LeftOfCursor(): (left: string)
      requires Valid()
      ensures left == document[LineStartFrom(document, 0, offset)..offset]
      ensures '\n' !in left
    {
      CurrentLine()[..OffsetByCurrentLine()]
    }

    /** The current line right of the cursor, up to (not including) the newline. */
    function RightOfCursor(): (right: string)
      requires Valid()
      ensures right == document[offset..LineEndFrom(document, 0, offset)]
      ensures '\n' !in right
      ensures LeftOfCursor() + right == CurrentLine()
    {
      CurrentLine()[OffsetByCurrentLine()..]
    }
  }

  // ---------------------------------------------------------------------
  // Characters and character classes
  // ---------------------------------------------------------------------

  /** `String.getChar`: null on the empty string; otherwise a negative index counts from the end. */
  function GetChar(s: string, index: int): (r: Option<char>)
    requires s == [] || -|s| <= index < |s|
    ensures r.None? <==> s == []
    ensures s != [] ==> r == Some(s[(index + |s|) % |s|])
  {
    if s == [] then None
    else if index < 0 then Some(s[|s| + index])
    else Some(s[index])
  }

  /** Reading `-k` is reading `|s| - k`: both ends agree on every character. */
  lemma GetCharNegativeCountsFromEnd(s: string, k: int)
    requires 1 <= k <= |s|
    ensures GetChar(s, -k) == GetChar(s, |s| - k) == Some(s[|s| - k])
    ensures GetChar([], k) == None
  {
  }

  /** Java's `\s`: space, tab, newline, vertical tab, form feed, carriage return. */
  predicate IsRegexSpace(c: char)
  {
    c == ' ' || c == '\t' || c == '\n' || c == '\U{0B}' || c == '\U{0C}' || c == '\r'
  }

  /** A member of the class `[:\s\t\n\r),."'\]]`. */
  predicate IsRightOfCursorSpecial(c: char)
  {
    c == ':' || IsRegexSpace(c) || c == ')' || c == ',' || c == '.' || c == '"' || c == '\'' || c == ']'
  }

  /** `^[:\s\t\n\r),."'\]]*$` matches the whole of `s`. */
  predicate RightOfCursorHasOnlySpecialChars(s: string)
  {
    forall i :: 0 <= i < |s| ==> IsRightOfCursorSpecial(s[i])
  }

  /** Kotlin's `Char.isWhitespace`, the test `String.trim()` strips by. */
  predicate IsWhitespace(c: char)
  {
    || c == ' ' || ('\t' <= c <= '\r') || ('\U{1C}' <= c <= '\U{1F}')
    || c == '\U{A0}' || c == '\U{1680}' || ('\U{2000}' <= c <= '\U{200A}')
    || c == '\U{2028}' || c == '\U{2029}' || c == '\U{202F}' || c == '\U{205F}' || c == '\U{3000}'
  }

  /** `s.trim().isEmpty()`: nothing but whitespace. */
  predicate TrimIsEmpty(s: string)
  {
    forall i :: 0 <= i < |s| ==> IsWhitespace(s[i])
  }

  /** `s.replace(c.toString(), "")`. */
  function RemoveAll(s: string, c: char): (r: string)
    ensures c !in r
    ensures forall x :: x in r ==> x in s
  {
    if s == [] then []
    else if s[0] == c then RemoveAll(s[1..], c)
    else [s[0]] + RemoveAll(s[1..], c)
  }

  /** `RemoveAll` keeps every character other than `c` as often as `s` holds it, and no `c`. */
  lemma {:induction false} RemoveAllCounts(s: string, c: char)
    ensures multiset(RemoveAll(s, c)) == multiset(s)[c := 0]
  {
    if s != [] {
      var x, t := s[0], s[1..];
      assert s == [x] + t;
      RemoveAllCons(x, t, c);
      RemoveAllCounts(t, c);
    }
  }

  /** Deleting `c` works piecewise: what is left of `a` comes before what is left of `b`. */
  lemma {:induction false} RemoveAllAppend(a: string, b: string, c: char)
    ensures RemoveAll(a + b, c) == RemoveAll(a, c) + RemoveAll(b, c)
  {
    if a != [] {
      RemoveAllAppend(a[1..], b, c);
      assert (a + b)[1..] == a[1..] + b;
    } else {
      assert a + b == b;
    }
  }

  /** One step of `RemoveAll`: the head is kept unless it is `c`. */
  lemma RemoveAllCons(x: char, t: string, c: char)
    ensures RemoveAll([x] + t, c) == (if x == c then [] else [x]) + RemoveAll(t, c)
  {
    assert ([x] + t)[1..] == t;
  }

  /** Deleting spaces, then tabs, leaves nothing exactly when the text is made of spaces and tabs. */
  lemma {:induction false} RemoveSpacesAndTabsEmptyIff(s: string)
    ensures RemoveAll(RemoveAll(s, ' '), '\t') == [] <==> forall i :: 0 <= i < |s| ==> s[i] == ' ' || s[i] == '\t'
  {
    if s != [] {
      var x, t := s[0], s[1..];
      assert s == [x] + t;
      RemoveSpacesAndTabsEmptyIff(t);
      RemoveAllCons(x, t, ' ');
      if x != ' ' {
        RemoveAllCons(x, RemoveAll(t, ' '), '\t');
      }
      assert (forall i :: 0 <= i < |s| ==> s[i] == ' ' || s[i] == '\t') <==>
        (x == ' ' || x == '\t') && (forall i :: 0 <= i < |t| ==> t[i] == ' ' || t[i] == '\t');
    }
  }

  /** Multiline mode: the current line left of the cursor is only spaces and tabs. */
  predicate IsBlankLeftOfCursor(left: string)
  {
    forall i :: 0 <= i < |left| ==> left[i] == ' ' || left[i] == '\t'
  }

  /** The text sent with a request: exactly one newline appended when it does not already end in one. */
  function EnsureTrailingNewline(s: string): (r: string)
    ensures |s| <= |r| <= |s| + 1 && r[..|s|] == s
    ensures s != [] ==> r[|r| - 1] == '\n'
    ensures s == [] || s[|s| - 1] == '\n' ==> r == s
  {
    if s != [] && s[|s| - 1] != '\n' then s + "\n" else s
  }

  /** Normalising twice is normalising once. */
  lemma TrailingNewlineIdempotent(s: string)
    ensures EnsureTrailingNewline(EnsureTrailingNewline(s)) == EnsureTrailingNewline(s)
  {
  }

  /**
   * The two right-trims of `difference` use slash-delimited JavaScript
   * literals (`/\s+$/` and `/[ \t\n]+$/`). Under Java's engine a match would
   * need a `/` right after a position where `$` holds, and `$` holds only at
   * the end of the input or just before a final line terminator (one
   * character, or a final `\r\n`), which is
   * never a `/`; so neither pattern matches and both replacements leave the
   * completion as it is.
   */
  predicate DollarHolds(s: string, q: int)
  {
    || q == |s|
    || (0 <= q == |s| - 1 && (s[q] == '\n' || s[q] == '\r' || s[q] == '\U{85}' || s[q] == '\U{2028}' || s[q] == '\U{2029}'))
    || (0 <= q == |s| - 2 && s[q] == '\r' && s[q + 1] == '\n')
  }

  predicate SlashTrimMatchesAt(s: string, p: int, q: int)
  {
    0 <= p < q < |s| && s[p] == '/' && DollarHolds(s, q) && s[q] == '/'
  }

  lemma SlashTrimNeverMatches(s: string, p: int, q: int)
    ensures !SlashTrimMatchesAt(s, p, q)
  {
  }

  // ---------------------------------------------------------------------
  // The backward scan of `difference`, as specification functions
  // ---------------------------------------------------------------------

  /** The character `depth` places from the end (`getChar(-depth)`), `None` outside `[1, |s|]` or on an empty string. */
  function Back(s: string, depth: int): Option<char>
  {
    if 1 <= depth <= |s| then GetChar(s, -depth) else None
  }

  /** The two texts agree on their last `n` characters. */
  ghost predicate AgreeFromEnd(requested: string, predicted: string, n: int)
  {
    forall k :: 1 <= k <= n ==> Back(requested, k) == Back(predicted, k)
  }

  /** The first depth, counting from `depth`, at which the texts differ, scanning no further than `requested`. */
  function MismatchFrom(requested: string, predicted: string, depth: nat): (d: Option<nat>)
    requires 1 <= depth
    ensures d.Some? ==> depth <= d.value <= |requested| && Back(requested, d.value) != Back(predicted, d.value)
    ensures d.Some? ==> forall k :: depth <= k < d.value ==> Back(requested, k) == Back(predicted, k)
    ensures d.None? ==> forall k :: depth <= k <= |requested| ==> Back(requested, k) == Back(predicted, k)
    decreases |requested| + 1 - depth
  {
    if depth > |requested| then None
    else if Back(requested, depth) != Back(predicted, depth) then Some(depth)
    else MismatchFrom(requested, predicted, depth + 1)
  }

  /** The depth of the first difference scanning backward, or `None` when the whole of `requested` agrees. */
  function Mismatch(requested: string, predicted: string): Option<nat>
  {
    MismatchFrom(requested, predicted, 1)
  }

  /** The greatest depth in `[1, depth]` at which `requested` holds a newline, or 0 when there is none. */
  function LastNewlineDepth(requested: string, depth: nat): (j: nat)
    requires depth <= |requested|
    ensures j <= depth
    ensures j > 0 ==> Back(requested, j) == Some('\n')
    ensures forall k :: j < k <= depth ==> Back(requested, k) != Some('\n')
  {
    if depth == 0 then 0
    else if Back(requested, depth) == Some('\n') then depth
    else LastNewlineDepth(requested, depth - 1)
  }

  /** `stopAt` before the final shift: `i + 1` for the last newline met at index `i = -j`, else 0. */
  function StopOffset(j: nat): int
  {
    if j == 0 then 0 else 1 - j
  }

  /** `stopAt` after the scan ended at depth `d`, end-aligned to `predicted`. */
  function StopAt(requested: string, predicted: string, d: nat): (stopAt: int)
    requires d <= |requested|
    ensures stopAt <= |predicted|
  {
    |predicted| + StopOffset(LastNewlineDepth(requested, d))
  }

  /**
   * What `difference` needs in order not to throw: the cursor lies inside
   * both texts (the two `substring` calls), the texts agree before it (the
   * `assert`), and the backward scan never indexes before the start of a
   * non-empty `predicted`, which happens exactly when `predicted` is a
   * proper suffix of `requested`.
   */
  predicate DifferenceDefined(requested: string, predicted: string, cursor: int)
  {
    && 0 <= cursor <= |requested|
    && cursor <= |predicted|
    && (forall k :: 0 <= k < cursor ==> requested[k] == predicted[k])
    && !(0 < |predicted| < |requested| && predicted == requested[|requested| - |predicted|..])
  }

  /** `Completion` of the VS Code-style reconciler. */
  datatype Completion = Completion(
    originalText: string,
    predictedText: Option<string>,
    completion: string,
    multiline: bool,
    startIndex: int,
    endIndex: int,
    createdTs: int)
  {
    predicate IsMakeSense(): (b: bool)
      ensures b <==> |completion| > 0
    {
      completion != []
    }
  }

  /** The tail of `difference` once `stopAt` and `endIndex` are known. */
  function Suggestion(requested: string, predicted: string, cursor: int, multiline: bool,
                      stopAt: int, endIndex: int, now: int): Option<Completion>
    requires 0 <= cursor && stopAt <= |predicted|
  {
    if cursor > stopAt then None
    else
      var completion := predicted[cursor..stopAt];
      if (!multiline && completion == SINGLE_LINE_REJECTED) || TrimIsEmpty(completion) then None
      else Some(Completion(requested, Some(predicted), completion, multiline, cursor, endIndex, now))
  }

  /** The specification of `difference`: what the backward scan returns. */
  function Reconcile(ready: bool, requested: string, predicted: string, cursor: int,
                     multiline: bool, now: int): (r: Option<Completion>)
    requires ready ==> DifferenceDefined(requested, predicted, cursor)
    ensures r.Some? ==> && ready && r.value.IsMakeSense()
                        && r.value.originalText == requested && r.value.predictedText == Some(predicted)
                        && r.value.startIndex == cursor && r.value.multiline == multiline
                        && cursor + |r.value.completion| <= |predicted|
                        && r.value.completion == predicted[cursor..cursor + |r.value.completion|]
  {
    if !ready then None
    else match Mismatch(requested, predicted)
      case None => None
      case Some(d) => Suggestion(requested, predicted, cursor, multiline,
                                 StopAt(requested, predicted, d), |predicted| - d, now)
  }

  // ---------------------------------------------------------------------
  // Properties of the reconciliation
  // ---------------------------------------------------------------------

  /** Agreement on the last `|predicted|` characters makes a shorter `predicted` a suffix of `requested`. */
  lemma AgreementGivesSuffix(requested: string, predicted: string)
    ensures 0 < |predicted| < |requested| && AgreeFromEnd(requested, predicted, |predicted|) ==>
            predicted == requested[|requested| - |predicted|..]
  {
    if 0 < |predicted| < |requested| && AgreeFromEnd(requested, predicted, |predicted|) {
      var n, m := |requested|, |predicted|;
      forall j | 0 <= j < m ensures predicted[j] == requested[n - m..][j] {
        assert Back(requested, m - j) == Back(predicted, m - j);
      }
    }
  }

  /** Under the scan's precondition, a mismatch lies within a non-empty `predicted`. */
  lemma MismatchWithinPredicted(requested: string, predicted: string, cursor: int)
    requires DifferenceDefined(requested, predicted, cursor)
    requires predicted != [] && Mismatch(requested, predicted).Some?
    ensures Mismatch(requested, predicted).value <= |predicted|
  {
    AgreementGivesSuffix(requested, predicted);
  }

  /**
   * No difference is found exactly when `requested` is a suffix of
   * `predicted`: then `difference` returns null, whatever the cursor.
   */
  lemma {:induction false} NoMismatchIffSuffix(requested: string, predicted: string)
    requires !(0 < |predicted| < |requested| && predicted == requested[|requested| - |predicted|..])
    ensures Mismatch(requested, predicted).None? <==>
            (|requested| <= |predicted| && predicted[|predicted| - |requested|..] == requested)
  {
    var n, m := |requested|, |predicted|;
    if Mismatch(requested, predicted).None? {
      if n > 0 {
        assert Back(requested, n) == Back(predicted, n);
      }
      forall j | 0 <= j < n ensures predicted[m - n + j] == requested[j] {
        assert Back(requested, n - j) == Back(predicted, n - j);
      }
      assert predicted[m - n..] == requested;
    }
    if n <= m && predicted[m - n..] == requested {
      forall k | 1 <= k <= n ensures Back(requested, k) == Back(predicted, k) {
        assert predicted[m - n..][n - k] == requested[n - k];
      }
    }
  }

  /** A model that echoes the request back yields no suggestion. */
  lemma EchoYieldsNothing(ready: bool, text: string, cursor: int, multiline: bool, now: int)
    requires ready ==> DifferenceDefined(text, text, cursor)
    ensures Reconcile(ready, text, text, cursor, multiline, now) == None
  {
  }

  /**
   * When the scan found a difference at depth `d`, the texts share their
   * last `d - 1` characters and differ just before them: `endIndex` is the
   * position in `predicted` of that differing character.
   */
  lemma {:induction false} MismatchIsCommonSuffixBoundary(requested: string, predicted: string, cursor: int)
    requires DifferenceDefined(requested, predicted, cursor)
    requires predicted != [] && Mismatch(requested, predicted).Some?
    ensures var d := Mismatch(requested, predicted).value;
            && 1 <= d <= |predicted| && d <= |requested|
            && predicted[|predicted| - d + 1..] == requested[|requested| - d + 1..]
            && predicted[|predicted| - d] != requested[|requested| - d]
  {
    MismatchWithinPredicted(requested, predicted, cursor);
    var d := Mismatch(requested, predicted).value;
    var n, m := |requested|, |predicted|;
    var ps, rs := predicted[m - d + 1..], requested[n - d + 1..];
    forall j | 0 <= j < |ps| ensures ps[j] == rs[j] {
      assert Back(requested, d - 1 - j) == Back(predicted, d - 1 - j);
    }
  }

  /**
   * What a successful reconciliation returns: the prediction sliced from
   * the cursor to `stopAt` with no trimming, started at the cursor, holding
   * the normalised request, ending at the mismatch, and never blank; in
   * single-line mode it is never the one rejected string.
   */
  lemma SuggestionShape(ready: bool, requested: string, predicted: string, cursor: int,
                        multiline: bool, now: int)
    requires ready ==> DifferenceDefined(requested, predicted, cursor)
    requires Reconcile(ready, requested, predicted, cursor, multiline, now).Some?
    ensures ready && Mismatch(requested, predicted).Some?
    ensures var d := Mismatch(requested, predicted).value;
            var c := Reconcile(ready, requested, predicted, cursor, multiline, now).value;
            && cursor <= StopAt(requested, predicted, d)
            && c.completion == predicted[cursor..StopAt(requested, predicted, d)]
            && c.originalText == requested && c.predictedText == Some(predicted)
            && c.startIndex == cursor && c.endIndex == |predicted| - d
            && c.multiline == multiline
            && c.IsMakeSense() && !TrimIsEmpty(c.completion)
            && (!multiline ==> c.completion != SINGLE_LINE_REJECTED)
  {
  }

  /**
   * `stopAt` is one past the newline met last (deepest) while scanning up to
   * and including the mismatch depth `d`, in `predicted`'s coordinates, or
   * the end of `predicted` when no newline was met.
   */
  lemma StopAtIsLineBoundary(requested: string, predicted: string, d: nat, j: nat)
    requires 1 <= d <= |requested|
    ensures (forall k :: 1 <= k <= d ==> Back(requested, k) != Some('\n')) ==>
            StopAt(requested, predicted, d) == |predicted|
    ensures 1 <= j <= d && Back(requested, j) == Some('\n') &&
            (forall k :: j < k <= d ==> Back(requested, k) != Some('\n')) ==>
            StopAt(requested, predicted, d) == |predicted| + 1 - j
  {
  }

  /** Worked example: "foo\n" completed to "foo\nbar\n" at offset 4 suggests "bar\n", trailing newline kept. */
  lemma WorkedExample(multiline: bool, now: int)
    ensures Reconcile(true, "foo\n", "foo\nbar\n", 4, multiline, now)
         == Some(Completion("foo\n", Some("foo\nbar\n"), "bar\n", multiline, 4, 6, now))
  {
    assert Mismatch("foo\n", "foo\nbar\n") == Some(2);
    assert LastNewlineDepth("foo\n", 2) == 1;
    assert "foo\nbar\n"[4..8] == "bar\n";
  }

  /** A single-line completion that spans lines is still offered: only the literal `/\n/g` is refused. */
  lemma EmbeddedNewlineAccepted(now: int)
    ensures Reconcile(true, "x = \n", "x = 1\ny = 2", 4, false, now)
         == Some(Completion("x = \n", Some("x = 1\ny = 2"), "1\ny = 2", false, 4, 10, now))
  {
    assert Mismatch("x = \n", "x = 1\ny = 2") == Some(1);
    assert LastNewlineDepth("x = \n", 1) == 1;
    assert "x = 1\ny = 2"[4..11] == "1\ny = 2";
  }

  /** The one string the single-line test refuses, accepted in multiline mode. */
  lemma SlashNewlineRejectedOnlySingleLine(now: int)
    ensures Reconcile(true, "a\n", "a/\n/g", 1, false, now) == None
    ensures Reconcile(true, "a\n", "a/\n/g", 1, true, now)
         == Some(Completion("a\n", Some("a/\n/g"), "/\n/g", true, 1, 4, now))
  {
    assert Mismatch("a\n", "a/\n/g") == Some(1);
    assert "a/\n/g"[1..5] == SINGLE_LINE_REJECTED;
  }

  // ---------------------------------------------------------------------
  // CompletionStateVsCode
  // ---------------------------------------------------------------------

  /**
   * The loop of `difference`: walks both texts from the end while they
   * agree, remembering the last newline of `requested` it passes, and
   * reports whether it met a difference, with `stopAt` and `endIndex`
   * end-aligned to `predicted`.
   */
  method ScanBackward(requestedText: string, predictedText: string)
    returns (anyDifferent: bool, stopAt: int, endIndex: int)
    requires !(0 < |predictedText| < |requestedText|
               && predictedText == requestedText[|requestedText| - |predictedText|..])
    ensures anyDifferent <==> Mismatch(requestedText, predictedText).Some?
    ensures anyDifferent ==>
              var d := Mismatch(requestedText, predictedText).value;
              stopAt == StopAt(requestedText, predictedText, d) && endIndex == |predictedText| - d
  {
    AgreementGivesSuffix(requestedText, predictedText);
    stopAt := 0;
    endIndex := 0;
    anyDifferent := false;
    var i := -1;
    while i >= -|requestedText|
      invariant -|requestedText| - 1 <= i <= -1
      invariant AgreeFromEnd(requestedText, predictedText, -i - 1)
      invariant Mismatch(requestedText, predictedText) == MismatchFrom(requestedText, predictedText, -i)
      invariant stopAt == StopOffset(LastNewlineDepth(requestedText, -i - 1))
      invariant !anyDifferent
      decreases i + |requestedText|
    {
      assert predictedText == [] || -i <= |predictedText|;
      var reqCh := GetChar(requestedText, i);
      var predCh := GetChar(predictedText, i);
      assert reqCh == Back(requestedText, -i) && predCh == Back(predictedText, -i);
      if reqCh == Some('\n') {
        stopAt := i + 1;
      }
      if reqCh != predCh {
        anyDifferent := true;
        endIndex := i;
        break;
      }
      i := i - 1;
    }
    stopAt := stopAt + |predictedText|;
    endIndex := endIndex + |predictedText|;
    if anyDifferent {
      assert Mismatch(requestedText, predictedText) == Some(-i);
    } else {
      assert Mismatch(requestedText, predictedText) == None;
    }
  }

  /**
   * The steps of the `init` block on the texts it reads: the current line
   * left and right of the cursor, and the document.
   */
  method InitFields(leftOfCursor: string, rightOfCursor: string, document: string)
    returns (multiline: bool, requestedText: string, readyForCompletion: bool)
    ensures var special := RightOfCursorHasOnlySpecialChars(rightOfCursor);
            && readyForCompletion == (special && |document| <= MAX_TEXT_SIZE)
            && multiline == (special && IsBlankLeftOfCursor(leftOfCursor))
            && requestedText == (if !special then ""
                                 else if |document| > MAX_TEXT_SIZE then document
                                 else EnsureTrailingNewline(document))
  {
    multiline := false;
    requestedText := "";
    readyForCompletion := false;
    if RightOfCursorHasOnlySpecialChars(rightOfCursor) {
      RemoveSpacesAndTabsEmptyIff(leftOfCursor);
      multiline := RemoveAll(RemoveAll(leftOfCursor, ' '), '\t') == [];
      requestedText := document;
      if |requestedText| <= MAX_TEXT_SIZE {
        if requestedText != [] && requestedText[|requestedText| - 1] != '\n' {
          requestedText := requestedText + "\n";
        }
        readyForCompletion := true;
      }
    }
  }

  class CompletionStateVsCode {
    var textHelper: EditorTextHelper
    var cursor: int
    var multiline: bool
    var requestedText: string
    var readyForCompletion: bool

    ghost predicate Valid()
      reads this
    {
      readyForCompletion ==> 0 <= cursor <= |requestedText|
    }

    /** The `init` block: readiness, multiline decision and the normalised request text. */
    constructor (textHelper: EditorTextHelper)
      requires textHelper.Valid()
      ensures Valid()
      ensures this.textHelper == textHelper && cursor == textHelper.offset
      ensures var special := RightOfCursorHasOnlySpecialChars(textHelper.RightOfCursor());
              var document := textHelper.document;
              && readyForCompletion == (special && |document| <= MAX_TEXT_SIZE)
              && multiline == (special && IsBlankLeftOfCursor(textHelper.LeftOfCursor()))
              && requestedText == (if !special then ""
                                   else if |document| > MAX_TEXT_SIZE then document
                                   else EnsureTrailingNewline(document))
    {
      this.textHelper := textHelper;
      cursor := textHelper.offset;
      var isMultiline, text, ready := InitFields(textHelper.LeftOfCursor(), textHelper.RightOfCursor(),
                                                 textHelper.document);
      multiline := isMultiline;
      requestedText := text;
      readyForCompletion := ready;
    }

    /** Multiline requests stop only at a blank line; single-line ones also at a newline. */
    function StopTokens(): (tokens: seq<string>)
      reads this
      ensures "\n\n" in tokens
      ensures "\n" in tokens <==> !multiline
      ensures |tokens| == if multiline then 1 else 2
    {
      if multiline then ["\n\n"] else ["\n", "\n\n"]
    }

    /** `difference`: the backward scan, proved to compute `Reconcile`. */
    method Difference(predictedText: string, now: int) returns (r: Option<Completion>)
      requires Valid()
      requires readyForCompletion ==> DifferenceDefined(requestedText, predictedText, cursor)
      ensures r == Reconcile(readyForCompletion, requestedText, predictedText, cursor, multiline, now)
    {
      if !readyForCompletion {
        return None;
      }
      var anyDifferent, stopAt, endIndex := ScanBackward(requestedText, predictedText);

      var fail := !anyDifferent;
      var completion := "";
      if !fail {
        fail := cursor > stopAt;
      }
      if !fail {
        completion := predictedText[cursor..stopAt];
      }
      if !fail && !multiline {
        // the slash-delimited right-trim never matches (SlashTrimNeverMatches)
        fail := completion == SINGLE_LINE_REJECTED;
      }
      if !fail {
        fail := TrimIsEmpty(completion);
      }
      r := if fail then None
           else Some(Completion(requestedText, Some(predictedText), completion, multiline, cursor, endIndex, now));
    }
  }
}
