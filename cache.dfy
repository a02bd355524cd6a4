/**
 * `CompletionCache`: an insertion-ordered map from (text, offset) to a
 * completion. Storing a completion also stores one derived entry per prefix
 * of it the user might type ahead, and one per whitespace character the user
 * might delete left of the cursor, so that a later request for the edited
 * document hits the cache.
 */
module Cache {
  import opened Optional
  import opened MinBy
  import opened CompletionStructs

  /** The size below which `cleanup` keeps every entry. */
  const DEFAULT_MAX_SIZE: int := 1600

  // ---------------------------------------------------------------------
  // The insertion-ordered map, as a value
  // ---------------------------------------------------------------------

  /** The contents of a `LinkedHashMap`: its keys in insertion order and its entries. */
  datatype Snapshot = Snapshot(order: seq<CompletionHash>, entries: map<CompletionHash, Completion>)
  {
    /** Every key occurs once in the order, and the order lists exactly the keys. */
    ghost predicate Valid()
    {
      && (forall k :: k in entries <==> k in order)
      && (forall i, j :: 0 <= i < j < |order| ==> order[i] != order[j])
    }

    /** `this[k] = v`: a new key goes last; an existing key keeps its place and takes the new value. */
    function Put(k: CompletionHash, v: Completion): Snapshot
    {
      Snapshot(if k in entries then order else order + [k], entries[k := v])
    }

    /** `remove(k)` of the key at position `i` of the order. */
    function RemoveAt(i: nat): Snapshot
      requires i < |order|
    {
      Snapshot(order[..i] + order[i + 1..], entries - {order[i]})
    }

    /** The creation times of the entries, in insertion order. */
    function Timestamps(): (ts: seq<int>)
      requires Valid()
      ensures |ts| == |order|
      ensures forall j :: 0 <= j < |order| ==> ts[j] == entries[order[j]].createdTs
    {
      seq(|order|, j requires 0 <= j < |order| => entries[order[j]].createdTs)
    }

    /**
     * `minByOrNull { it.value.createdTs }?.key` on a non-empty map: an entry
     * created no later than any other, the first such in insertion order.
     */
    function Oldest(): (i: nat)
      requires Valid() && |order| > 0
      ensures i < |order|
      ensures forall k :: k in entries ==> entries[order[i]].createdTs <= entries[k].createdTs
      ensures forall j :: 0 <= j < i ==> entries[order[j]].createdTs > entries[order[i]].createdTs
    {
      var ts := Timestamps();
      var i := FirstMinIndex(ts);
      assert forall k :: k in entries ==> ts[i] <= entries[k].createdTs by {
        forall k | k in entries ensures ts[i] <= entries[k].createdTs {
          var j :| 0 <= j < |order| && order[j] == k;
          assert ts[j] == entries[k].createdTs;
        }
      }
      i
    }

    /** `cleanup(maxSize)`. */
    function Cleanup(maxSize: int): Snapshot
      requires Valid()
    {
      if |order| < maxSize || |order| == 0 then this else RemoveAt(Oldest())
    }

    /** The stores `this[key(e)] = e` for every `e` of `es`, in order. */
    function StoreAll(es: seq<Completion>): Snapshot
      decreases |es|
    {
      if es == [] then this
      else
        var e := es[|es| - 1];
        StoreAll(es[..|es| - 1]).Put(KeyOf(e), e)
    }
  }

  // ---------------------------------------------------------------------
  // Properties of the map operations
  // ---------------------------------------------------------------------

  /** `this[k] = v` keeps every key listed once in the order. */
  lemma PutKeepsValid(t: Snapshot, k: CompletionHash, v: Completion)
    requires t.Valid()
    ensures t.Put(k, v).Valid()
  {
  }

  /** Removing the key at position `i` keeps every remaining key listed once in the order. */
  lemma RemoveAtKeepsValid(t: Snapshot, i: nat)
    requires t.Valid() && i < |t.order|
    ensures t.RemoveAt(i).Valid()
  {
    DeleteAtDistinct(t.order, i);
    DeleteAtMembers(t.order, i);
  }

  /** The order without position `i`, element by element. */
  lemma DeleteAtIndex(order: seq<CompletionHash>, i: nat)
    requires i < |order|
    ensures var rest := order[..i] + order[i + 1..];
            && |rest| == |order| - 1
            && (forall j :: 0 <= j < i ==> rest[j] == order[j])
            && (forall j :: i <= j < |rest| ==> rest[j] == order[j + 1])
  {
  }

  lemma DeleteAtDistinct(order: seq<CompletionHash>, i: nat)
    requires i < |order|
    requires forall a, b :: 0 <= a < b < |order| ==> order[a] != order[b]
    ensures var rest := order[..i] + order[i + 1..];
            forall a, b :: 0 <= a < b < |rest| ==> rest[a] != rest[b]
  {
    var rest := order[..i] + order[i + 1..];
    DeleteAtIndex(order, i);
    forall a, b | 0 <= a < b < |rest| ensures rest[a] != rest[b] {
      var oa := if a < i then a else a + 1;
      var ob := if b < i then b else b + 1;
      assert rest[a] == order[oa] && rest[b] == order[ob];
    }
  }

  lemma DeleteAtMembers(order: seq<CompletionHash>, i: nat)
    requires i < |order|
    requires forall a, b :: 0 <= a < b < |order| ==> order[a] != order[b]
    ensures var rest := order[..i] + order[i + 1..];
            forall k :: k in rest <==> k in order && k != order[i]
  {
    var rest := order[..i] + order[i + 1..];
    DeleteAtIndex(order, i);
    forall k | k in rest ensures k in order && k != order[i] {
      var j :| 0 <= j < |rest| && rest[j] == k;
      var o := if j < i then j else j + 1;
      assert rest[j] == order[o];
    }
    forall k | k in order && k != order[i] ensures k in rest {
      var j :| 0 <= j < |order| && order[j] == k;
      if j < i { assert rest[j] == k; } else { assert rest[j - 1] == k; }
    }
  }

  /** A run of stores keeps every key listed once in the order. */
  lemma {:induction false} StoreAllKeepsValid(t: Snapshot, es: seq<Completion>)
    requires t.Valid()
    ensures t.StoreAll(es).Valid()
    decreases |es|
  {
    if es != [] {
      var e := es[|es| - 1];
      StoreAllKeepsValid(t, es[..|es| - 1]);
      PutKeepsValid(t.StoreAll(es[..|es| - 1]), KeyOf(e), e);
    }
  }

  /**
   * `cleanup` leaves a map below `maxSize`, or an empty one, alone;
   * otherwise it removes exactly one entry, one created no later than any
   * other, and keeps the others with their values.
   */
  lemma CleanupEvictsOldest(t: Snapshot, maxSize: int)
    requires t.Valid()
    ensures |t.order| < maxSize || |t.order| == 0 ==> t.Cleanup(maxSize) == t
    ensures !(|t.order| < maxSize || |t.order| == 0) ==>
              var victim := t.order[t.Oldest()];
              && victim in t.entries
              && t.Cleanup(maxSize).entries == t.entries - {victim}
              && |t.Cleanup(maxSize).entries| == |t.entries| - 1
              && (forall k :: k in t.entries ==> t.entries[victim].createdTs <= t.entries[k].createdTs)
  {
  }

  /** `cleanup` keeps every key listed once in the order. */
  lemma CleanupKeepsValid(t: Snapshot, maxSize: int)
    requires t.Valid()
    ensures t.Cleanup(maxSize).Valid()
  {
    if !(|t.order| < maxSize || |t.order| == 0) {
      RemoveAtKeepsValid(t, t.Oldest());
    }
  }

  /** A key no stored entry has keeps its presence and its value. */
  lemma {:induction false} StoreAllMiss(t: Snapshot, es: seq<Completion>, k: CompletionHash)
    requires forall j :: 0 <= j < |es| ==> KeyOf(es[j]) != k
    ensures k in t.StoreAll(es).entries <==> k in t.entries
    ensures k in t.entries ==> t.StoreAll(es).entries[k] == t.entries[k]
    decreases |es|
  {
    if es != [] {
      StoreAllMiss(t, es[..|es| - 1], k);
    }
  }

  /** An entry whose key no other stored entry has is what the map holds under that key. */
  lemma {:induction false} StoreAllUniqueHit(t: Snapshot, es: seq<Completion>, j: nat)
    requires j < |es|
    requires forall i :: 0 <= i < |es| && i != j ==> KeyOf(es[i]) != KeyOf(es[j])
    ensures KeyOf(es[j]) in t.StoreAll(es).entries
    ensures t.StoreAll(es).entries[KeyOf(es[j])] == es[j]
    decreases |es|
  {
    var n := |es| - 1;
    if j < n {
      StoreAllUniqueHit(t, es[..n], j);
    }
  }

  /** Storing one more entry is one more `Put`. */
  lemma StoreAllSnoc(t: Snapshot, es: seq<Completion>, e: Completion)
    ensures t.StoreAll(es + [e]) == t.StoreAll(es).Put(KeyOf(e), e)
  {
    assert (es + [e])[..|es|] == es;
  }

  /** Storing never loses a key. */
  lemma {:induction false} StoreAllKeepsKeys(t: Snapshot, es: seq<Completion>)
    ensures t.entries.Keys <= t.StoreAll(es).entries.Keys
    decreases |es|
  {
    if es != [] {
      StoreAllKeepsKeys(t, es[..|es| - 1]);
    }
  }

  // ---------------------------------------------------------------------
  // The derived entries
  // ---------------------------------------------------------------------

  /** `reversed()`. */
  function Reverse(s: string): (r: string)
    ensures |r| == |s|
    ensures forall j :: 0 <= j < |s| ==> r[j] == s[|s| - 1 - j]
  {
    if s == [] then [] else Reverse(s[1..]) + [s[0]]
  }

  /**
   * The forward entry for `i`: the user has typed the first `i` characters
   * of the completion, which then suggests the rest. Accepting it yields the
   * same document as accepting `c`.
   */
  function ForwardEntry(c: Completion, i: nat): (e: Completion)
    requires Anchored(c) && i <= |c.completion|
    ensures Anchored(e)
    ensures e.completion == c.completion[i..]
    ensures AcceptedText(e) == AcceptedText(c)
  {
    var s := c.startIndex;
    TypedAheadSplit(c.originalText, c.completion, s, i);
    c.(
      originalText := c.originalText[..s] + c.completion[..i] + c.originalText[s..],
      completion := c.completion[i..],
      startIndex := s + i,
      endIndex := c.endIndex + i,
      firstLineEndIndex := c.firstLineEndIndex + i,
      leftSymbolsToSkip := if c.leftSymbolsToRemove > 0 then i else 0,
      isFromCache := true)
  }

  /** Typing the first `i` characters of `ins` at `s` and inserting the rest after them is inserting all of `ins`. */
  lemma TypedAheadSplit(text: string, ins: string, s: nat, i: nat)
    requires s <= |text| && i <= |ins|
    ensures var typed := text[..s] + ins[..i] + text[s..];
            && |typed| == |text| + i
            && typed[..s + i] + ins[i..] + typed[s + i..] == text[..s] + ins + text[s..]
  {
    var typed := text[..s] + ins[..i] + text[s..];
    assert typed[..s + i] == text[..s] + ins[..i];
    assert typed[s + i..] == text[s..];
    assert ins[..i] + ins[i..] == ins;
  }

  /** The forward entries for `0 <= i < n`. */
  function Forward(c: Completion, n: nat): (es: seq<Completion>)
    requires Anchored(c) && n <= |c.completion|
  {
    seq(n, i requires 0 <= i < n => ForwardEntry(c, i))
  }

  /** The backward loop stops before `i` when that character is not a space or tab, or too few symbols would be left. */
  predicate StopsBackwardAt(c: Completion, beforeLeft: string, i: nat)
    requires i < |beforeLeft|
  {
    (beforeLeft[i] != ' ' && beforeLeft[i] != '\t') || |beforeLeft| - (1 + i) < c.leftSymbolsToRemove
  }

  /** The number of iterations the backward loop completes, starting at `i`. */
  function BackwardStepsFrom(c: Completion, beforeLeft: string, i: nat): (n: nat)
    requires i <= |beforeLeft|
    ensures i <= n <= |beforeLeft|
    ensures forall j :: i <= j < n ==> !StopsBackwardAt(c, beforeLeft, j)
    ensures n < |beforeLeft| ==> StopsBackwardAt(c, beforeLeft, n)
    decreases |beforeLeft| - i
  {
    if i == |beforeLeft| || StopsBackwardAt(c, beforeLeft, i) then i
    else BackwardStepsFrom(c, beforeLeft, i + 1)
  }

  function BackwardSteps(c: Completion, beforeLeft: string): nat
  {
    BackwardStepsFrom(c, beforeLeft, 0)
  }

  /** The backward loop completes exactly `n` iterations when it passes every index below `n` and stops at `n`. */
  lemma {:induction false} BackwardStepsIs(c: Completion, beforeLeft: string, i: nat, n: nat)
    requires i <= n <= |beforeLeft|
    requires forall j :: i <= j < n ==> !StopsBackwardAt(c, beforeLeft, j)
    requires n < |beforeLeft| ==> StopsBackwardAt(c, beforeLeft, n)
    ensures BackwardStepsFrom(c, beforeLeft, i) == n
    decreases n - i
  {
    if i < n {
      BackwardStepsIs(c, beforeLeft, i + 1, n);
    }
  }

  /**
   * The backward entry for `i`: the user has deleted the `i` characters left
   * of the cursor, which the completion then puts back. `beforeLeft` is the
   * text left of the cursor, reversed.
   */
  function BackwardEntry(c: Completion, beforeLeft: string, i: nat): (e: Completion)
    requires Anchored(c) && i <= |beforeLeft| && i <= c.startIndex
    ensures Anchored(e)
    ensures e.completion == Reverse(beforeLeft[..i]) + c.completion
    ensures e.startIndex == c.startIndex - i
  {
    var s := c.startIndex;
    // the two branches of `leftSymbolsToRemove - i > 0` build the same text
    var completionText := if c.leftSymbolsToRemove - i > 0 then Reverse(beforeLeft[..i]) + c.completion
                          else Reverse(beforeLeft[..i]) + c.completion;
    c.(
      originalText := c.originalText[..s - i] + c.originalText[s..],
      completion := completionText,
      startIndex := s - i,
      endIndex := c.endIndex - i,
      firstLineEndIndex := c.firstLineEndIndex - i,
      isFromCache := true)
  }

  /** The backward entries for `0 <= i < n`. */
  function Backward(c: Completion, beforeLeft: string, n: nat): (es: seq<Completion>)
    requires Anchored(c) && n <= |beforeLeft| <= c.startIndex
  {
    seq(n, i requires 0 <= i < n => BackwardEntry(c, beforeLeft, i))
  }

  lemma BackwardSnoc(c: Completion, beforeLeft: string, i: nat)
    requires Anchored(c) && i < |beforeLeft| <= c.startIndex
    ensures Backward(c, beforeLeft, i + 1) == Backward(c, beforeLeft, i) + [BackwardEntry(c, beforeLeft, i)]
  {
  }

  lemma ForwardSnoc(c: Completion, i: nat)
    requires Anchored(c) && i < |c.completion|
    ensures Forward(c, i + 1) == Forward(c, i) + [ForwardEntry(c, i)]
  {
  }

  /** What `addCompletion` makes of the map: cleanup, then the forward stores, then the backward ones. */
  function AfterAdd(t: Snapshot, c: Completion, beforeLeft: string, maxSize: int): Snapshot
    requires t.Valid() && Anchored(c) && |beforeLeft| <= c.startIndex
  {
    t.Cleanup(maxSize)
     .StoreAll(Forward(c, |c.completion|))
     .StoreAll(Backward(c, beforeLeft, BackwardSteps(c, beforeLeft)))
  }

  // ---------------------------------------------------------------------
  // Properties of addCompletion
  // ---------------------------------------------------------------------

  /**
   * When `beforeLeft` is the reversed text left of the cursor and its first
   * `i` characters are deleted, accepting the backward entry restores them
   * and yields the same document as accepting `c`.
   */
  lemma BackwardEntryAcceptsSame(c: Completion, beforeLeft: string, i: nat)
    requires Anchored(c) && i <= |beforeLeft| <= c.startIndex
    requires forall j :: 0 <= j < |beforeLeft| ==> beforeLeft[j] == c.originalText[c.startIndex - 1 - j]
    ensures AcceptedText(BackwardEntry(c, beforeLeft, i)) == AcceptedText(c)
  {
    var s, o := c.startIndex, c.originalText;
    var e := BackwardEntry(c, beforeLeft, i);
    ReversedLeftIsSlice(c, beforeLeft, i);
    DeletedLeftSplit(o, c.completion, s, i);
    assert e.originalText == o[..s - i] + o[s..];
    assert e.completion == o[s - i..s] + c.completion;
  }

  /** The first `i` characters of the reversed left text, reversed back, are the `i` characters before the cursor. */
  lemma ReversedLeftIsSlice(c: Completion, beforeLeft: string, i: nat)
    requires Anchored(c) && i <= |beforeLeft| <= c.startIndex
    requires forall j :: 0 <= j < |beforeLeft| ==> beforeLeft[j] == c.originalText[c.startIndex - 1 - j]
    ensures Reverse(beforeLeft[..i]) == c.originalText[c.startIndex - i..c.startIndex]
  {
    var s, o := c.startIndex, c.originalText;
    var back := Reverse(beforeLeft[..i]);
    forall j | 0 <= j < i ensures back[j] == o[s - i..s][j] {
      assert back[j] == beforeLeft[i - 1 - j];
    }
  }

  /** Deleting the `i` characters before `s` and inserting them again in front of `ins` is inserting `ins`. */
  lemma DeletedLeftSplit(text: string, ins: string, s: nat, i: nat)
    requires i <= s <= |text|
    ensures var deleted := text[..s - i] + text[s..];
            && |deleted| == |text| - i
            && deleted[..s - i] + (text[s - i..s] + ins) + deleted[s - i..] == text[..s] + ins + text[s..]
  {
    var deleted := text[..s - i] + text[s..];
    assert deleted[..s - i] == text[..s - i];
    assert deleted[s - i..] == text[s..];
    assert text[..s - i] + text[s - i..s] == text[..s];
  }

  /** Forward entries are filed under distinct keys: their start indices differ. */
  lemma ForwardKeysDistinct(c: Completion, n: nat, j: nat)
    requires Anchored(c) && n <= |c.completion| && j < n
    ensures forall i :: 0 <= i < n && i != j ==> KeyOf(Forward(c, n)[i]) != KeyOf(Forward(c, n)[j])
  {
  }

  /**
   * Round trip: after `addCompletion(c)` with a non-empty completion,
   * `getCompletion(c.originalText, c.startIndex)` finds an entry suggesting
   * exactly `c.completion`.
   */
  lemma AddThenGetRoundTrip(t: Snapshot, c: Completion, beforeLeft: string, maxSize: int)
    requires t.Valid() && Anchored(c) && |beforeLeft| <= c.startIndex
    requires c.completion != []
    ensures KeyOf(c) in AfterAdd(t, c, beforeLeft, maxSize).entries
    ensures AfterAdd(t, c, beforeLeft, maxSize).entries[KeyOf(c)].completion == c.completion
  {
    var n := BackwardSteps(c, beforeLeft);
    var fwd := Forward(c, |c.completion|);
    var bwd := Backward(c, beforeLeft, n);
    var t1 := t.Cleanup(maxSize).StoreAll(fwd);
    assert KeyOf(fwd[0]) == KeyOf(c) by {
      assert c.completion[..0] == [] && c.originalText[..c.startIndex] + c.originalText[c.startIndex..] == c.originalText;
    }
    ForwardKeysDistinct(c, |c.completion|, 0);
    StoreAllUniqueHit(t.Cleanup(maxSize), fwd, 0);
    if n == 0 {
      StoreAllMiss(t1, bwd, KeyOf(c));
    } else {
      assert KeyOf(bwd[0]) == KeyOf(c) by {
        assert c.originalText[..c.startIndex] + c.originalText[c.startIndex..] == c.originalText;
      }
      assert Reverse(beforeLeft[..0]) == [];
      StoreAllUniqueHit(t1, bwd, 0);
    }
  }

  /** Each typed-ahead prefix `0 < i < |completion|` finds its forward entry. */
  lemma AddThenGetForward(t: Snapshot, c: Completion, beforeLeft: string, maxSize: int, i: nat)
    requires t.Valid() && Anchored(c) && |beforeLeft| <= c.startIndex
    requires 0 < i < |c.completion|
    ensures KeyOf(ForwardEntry(c, i)) in AfterAdd(t, c, beforeLeft, maxSize).entries
    ensures AfterAdd(t, c, beforeLeft, maxSize).entries[KeyOf(ForwardEntry(c, i))] == ForwardEntry(c, i)
  {
    var n := BackwardSteps(c, beforeLeft);
    var fwd := Forward(c, |c.completion|);
    var t1 := t.Cleanup(maxSize).StoreAll(fwd);
    ForwardKeysDistinct(c, |c.completion|, i);
    StoreAllUniqueHit(t.Cleanup(maxSize), fwd, i);
    StoreAllMiss(t1, Backward(c, beforeLeft, n), KeyOf(ForwardEntry(c, i)));
  }

  /** Each whitespace deletion `0 < i` the backward loop reaches finds its backward entry. */
  lemma AddThenGetBackward(t: Snapshot, c: Completion, beforeLeft: string, maxSize: int, i: nat)
    requires t.Valid() && Anchored(c) && |beforeLeft| <= c.startIndex
    requires 0 < i < BackwardSteps(c, beforeLeft)
    ensures KeyOf(BackwardEntry(c, beforeLeft, i)) in AfterAdd(t, c, beforeLeft, maxSize).entries
    ensures AfterAdd(t, c, beforeLeft, maxSize).entries[KeyOf(BackwardEntry(c, beforeLeft, i))]
         == BackwardEntry(c, beforeLeft, i)
  {
    var n := BackwardSteps(c, beforeLeft);
    var bwd := Backward(c, beforeLeft, n);
    var t1 := t.Cleanup(maxSize).StoreAll(Forward(c, |c.completion|));
    StoreAllUniqueHit(t1, bwd, i);
  }

  /**
   * A key that is no derived entry's keeps its entry, unless cleanup evicted
   * it: at most one earlier entry is lost, so the map may grow past `maxSize`.
   */
  lemma AddKeepsOtherEntries(t: Snapshot, c: Completion, beforeLeft: string, maxSize: int, k: CompletionHash)
    requires t.Valid() && Anchored(c) && |beforeLeft| <= c.startIndex
    requires k in t.Cleanup(maxSize).entries
    requires forall i :: 0 <= i < |c.completion| ==> KeyOf(ForwardEntry(c, i)) != k
    requires forall i :: 0 <= i < BackwardSteps(c, beforeLeft) ==> KeyOf(BackwardEntry(c, beforeLeft, i)) != k
    ensures k in AfterAdd(t, c, beforeLeft, maxSize).entries
    ensures AfterAdd(t, c, beforeLeft, maxSize).entries[k] == t.Cleanup(maxSize).entries[k]
  {
    var t0 := t.Cleanup(maxSize);
    var fwd := Forward(c, |c.completion|);
    StoreAllMiss(t0, fwd, k);
    StoreAllMiss(t0.StoreAll(fwd), Backward(c, beforeLeft, BackwardSteps(c, beforeLeft)), k);
  }

  /** One `addCompletion` removes at most one entry that was there before. */
  lemma AddRemovesAtMostOne(t: Snapshot, c: Completion, beforeLeft: string, maxSize: int,
                            k1: CompletionHash, k2: CompletionHash)
    requires t.Valid() && Anchored(c) && |beforeLeft| <= c.startIndex
    requires k1 in t.entries && k1 !in AfterAdd(t, c, beforeLeft, maxSize).entries
    requires k2 in t.entries && k2 !in AfterAdd(t, c, beforeLeft, maxSize).entries
    ensures k1 == k2
  {
    var t0 := t.Cleanup(maxSize);
    var fwd := Forward(c, |c.completion|);
    CleanupEvictsOldest(t, maxSize);
    CleanupKeepsValid(t, maxSize);
    StoreAllKeepsKeys(t0, fwd);
    StoreAllKeepsKeys(t0.StoreAll(fwd), Backward(c, beforeLeft, BackwardSteps(c, beforeLeft)));
  }

  // ---------------------------------------------------------------------
  // The cache object
  // ---------------------------------------------------------------------

  class CompletionCache {
    /** The keys in insertion order. */
    var order: seq<CompletionHash>
    var entries: map<CompletionHash, Completion>

    function Contents(): Snapshot
      reads this
    {
      Snapshot(order, entries)
    }

    ghost predicate Valid()
      reads this
    {
      Contents().Valid()
    }

    constructor ()
      ensures Valid() && order == [] && entries == map[]
    {
      order := [];
      entries := map[];
    }

    /** `cleanup(maxSize)`: evicts one oldest entry once the map has reached `maxSize`. */
    method Cleanup(maxSize: int)
      requires Valid()
      modifies this
      ensures Valid()
      ensures Contents() == old(Contents()).Cleanup(maxSize)
    {
      if |order| < maxSize || |order| == 0 {
        return;
      }
      var victimAt := Contents().Oldest();
      var victim := order[victimAt];
      RemoveAtKeepsValid(Contents(), victimAt);
      order := order[..victimAt] + order[victimAt + 1..];
      entries := entries - {victim};
    }

    /** `this[key] = e`. */
    method Store(e: Completion)
      requires Valid()
      modifies this
      ensures Valid()
      ensures Contents() == old(Contents()).Put(KeyOf(e), e)
    {
      var key := KeyOf(e);
      PutKeepsValid(Contents(), key, e);
      if key !in entries {
        order := order + [key];
      }
      entries := entries[key := e];
    }

    /**
     * `addCompletion(c, maxSize)`; `beforeLeft` is what
     * `c.symbolsBeforeLeftCursorReversed()` returns.
     */
    method AddCompletion(c: Completion, beforeLeft: string, maxSize: int)
      requires Valid()
      requires Anchored(c) && |beforeLeft| <= c.startIndex
      modifies this
      ensures Valid()
      ensures Contents() == AfterAdd(old(Contents()), c, beforeLeft, maxSize)
    {
      Cleanup(maxSize);
      StoreForward(c);
      StoreBackward(c, beforeLeft);
    }

    /** The first loop of `addCompletion`: one entry per typed-ahead prefix of the completion. */
    method StoreForward(c: Completion)
      requires Valid() && Anchored(c)
      modifies this
      ensures Valid()
      ensures Contents() == old(Contents()).StoreAll(Forward(c, |c.completion|))
    {
      ghost var start := Contents();
      for i := 0 to |c.completion|
        invariant Contents() == start.StoreAll(Forward(c, i))
      {
        StoreForwardEntry(c, i, start);
      }
      StoreAllKeepsValid(start, Forward(c, |c.completion|));
    }

    /** One iteration of the first loop. */
    method StoreForwardEntry(c: Completion, i: nat, ghost start: Snapshot)
      requires start.Valid() && Anchored(c) && i < |c.completion|
      requires Contents() == start.StoreAll(Forward(c, i))
      modifies this
      ensures Contents() == start.StoreAll(Forward(c, i + 1))
    {
      var newCompletion := ForwardEntry(c, i);
      ForwardSnoc(c, i);
      StoreAllSnoc(start, Forward(c, i), newCompletion);
      StoreAllKeepsValid(start, Forward(c, i));
      Store(newCompletion);
    }

    /** The second loop of `addCompletion`: one entry per space or tab deleted left of the cursor. */
    method StoreBackward(c: Completion, beforeLeft: string)
      requires Valid() && Anchored(c) && |beforeLeft| <= c.startIndex
      modifies this
      ensures Valid()
      ensures Contents() == old(Contents()).StoreAll(Backward(c, beforeLeft, BackwardSteps(c, beforeLeft)))
    {
      ghost var start := Contents();
      var i := 0;
      while i < |beforeLeft|
        invariant i <= BackwardSteps(c, beforeLeft) == BackwardStepsFrom(c, beforeLeft, i)
        invariant Contents() == start.StoreAll(Backward(c, beforeLeft, i))
        decreases |beforeLeft| - i
      {
        var remaining := Reverse(beforeLeft)[1 + i..];
        assert |remaining| == |beforeLeft| - (1 + i);
        if (beforeLeft[i] != ' ' && beforeLeft[i] != '\t') || |remaining| < c.leftSymbolsToRemove {
          break;
        }
        StoreBackwardEntry(c, beforeLeft, i, start);
        i := i + 1;
      }
      StoreAllKeepsValid(start, Backward(c, beforeLeft, i));
    }

    /** One iteration of the second loop. */
    method StoreBackwardEntry(c: Completion, beforeLeft: string, i: nat, ghost start: Snapshot)
      requires start.Valid() && Anchored(c) && i < |beforeLeft| <= c.startIndex
      requires Contents() == start.StoreAll(Backward(c, beforeLeft, i))
      modifies this
      ensures Contents() == start.StoreAll(Backward(c, beforeLeft, i + 1))
    {
      var newCompletion := BackwardEntry(c, beforeLeft, i);
      BackwardSnoc(c, beforeLeft, i);
      StoreAllSnoc(start, Backward(c, beforeLeft, i), newCompletion);
      StoreAllKeepsValid(start, Backward(c, beforeLeft, i));
      Store(newCompletion);
    }

    /** `getCompletion(text, offset)`: the entry under that key, or null on a miss. */
    function GetCompletion(text: string, offset: int): (r: Option<Completion>)
      reads this
      ensures r.Some? <==> CompletionHash(text, offset) in entries
      ensures r.Some? ==> r.value == entries[CompletionHash(text, offset)]
    {
      var key := CompletionHash(text, offset);
      if key in entries then Some(entries[key]) else None
    }
  }
}
