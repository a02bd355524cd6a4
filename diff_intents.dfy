/**
 * `DiffIntentProvider`: the intents offered by the cloud and the
 * most-recent-first history of intents the user asked for. The history lives
 * in the application settings; here it is a field of the provider.
 */
module DiffIntents {
  import opened Optional

  /** `DiffIntentEntry`: two entries are equal exactly when all their fields are. */
  datatype DiffIntentEntry = DiffIntentEntry(
    intent: string,
    model: Option<string>,
    supportHighlight: bool,
    supportSelection: bool,
    selectedLinesMin: int,
    selectedLinesMax: int,
    metering: int,
    thirdParty: bool,
    functionName: string)

  /** How many older entries the history keeps behind the newest. */
  const HISTORY_KEEP: nat := 20

  /** The entries of `h` other than `e`, in order. */
  function Without(h: seq<DiffIntentEntry>, e: DiffIntentEntry): (r: seq<DiffIntentEntry>)
    ensures e !in r
    ensures forall x :: x in r <==> x in h && x != e
  {
    if h == [] then []
    else
      assert h == [h[0]] + h[1..];
      (if h[0] == e then [] else [h[0]]) + Without(h[1..], e)
  }

  /** `Without` keeps every entry other than `e` as often as `h` holds it, and no copy of `e`. */
  lemma {:induction false} WithoutCounts(h: seq<DiffIntentEntry>, e: DiffIntentEntry)
    ensures multiset(Without(h, e)) == multiset(h)[e := 0]
    ensures |Without(h, e)| == |h| - multiset(h)[e]
  {
    if h != [] {
      var x, t := h[0], h[1..];
      assert h == [x] + t;
      WithoutCons(x, t, e);
      WithoutCounts(t, e);
    }
  }

  /** One step of `Without`: the head is kept unless it is `e`. */
  lemma WithoutCons(x: DiffIntentEntry, t: seq<DiffIntentEntry>, e: DiffIntentEntry)
    ensures Without([x] + t, e) == (if x == e then [] else [x]) + Without(t, e)
  {
    assert ([x] + t)[1..] == t;
  }

  /** Removing `e` works piecewise: the kept entries of `a` come before those of `b`. */
  lemma {:induction false} WithoutAppend(a: seq<DiffIntentEntry>, b: seq<DiffIntentEntry>, e: DiffIntentEntry)
    ensures Without(a + b, e) == Without(a, e) + Without(b, e)
  {
    if a != [] {
      var x, t := a[0], a[1..];
      var head: seq<DiffIntentEntry> := if x == e then [] else [x];
      assert a == [x] + t;
      assert a + b == [x] + (t + b);
      calc {
        Without(a + b, e);
        { WithoutCons(x, t + b, e); }
        head + Without(t + b, e);
        { WithoutAppend(t, b, e); }
        head + (Without(t, e) + Without(b, e));
        (head + Without(t, e)) + Without(b, e);
        { WithoutCons(x, t, e); }
        Without(a, e) + Without(b, e);
      }
    } else {
      assert a + b == b;
    }
  }

  /** The first `n` elements of `s`, or all of them when there are fewer. */
  function Take(s: seq<DiffIntentEntry>, n: nat): (r: seq<DiffIntentEntry>)
    ensures |r| == if |s| < n then |s| else n
    ensures r == s[..|r|]
  {
    if |s| < n then s else s[..n]
  }

  /** The history after asking for `e`: `e` first, then the older entries other than `e`, at most 20 of them. */
  function PushFront(h: seq<DiffIntentEntry>, e: DiffIntentEntry): (r: seq<DiffIntentEntry>)
    ensures |r| >= 1 && r[0] == e
    ensures e !in r[1..]
    ensures |r| <= HISTORY_KEEP + 1
  {
    [e] + Take(Without(h, e), HISTORY_KEEP)
  }

  /** The new history holds `e` exactly once. */
  lemma PushFrontHoldsOnce(h: seq<DiffIntentEntry>, e: DiffIntentEntry)
    ensures multiset(PushFront(h, e))[e] == 1
  {
    var r := PushFront(h, e);
    assert r == [e] + r[1..];
    assert e !in multiset(r[1..]);
  }

  /** Behind `e`, the history is the old one without `e`, in order, cut to 20 entries. */
  lemma PushFrontTail(h: seq<DiffIntentEntry>, e: DiffIntentEntry)
    ensures |PushFront(h, e)| - 1 == (if |h| - multiset(h)[e] < HISTORY_KEEP then |h| - multiset(h)[e] else HISTORY_KEEP)
    ensures forall x :: x in PushFront(h, e)[1..] ==> x in h && x != e
    ensures PushFront(h, e)[1..] == Without(h, e)[..|PushFront(h, e)| - 1]
  {
    WithoutCounts(h, e);
  }

  /** A history of at most 20 entries other than `e` loses nothing. */
  lemma PushFrontKeepsShortHistory(h: seq<DiffIntentEntry>, e: DiffIntentEntry)
    requires e !in h && |h| <= HISTORY_KEEP
    ensures PushFront(h, e) == [e] + h
  {
    WithoutAbsent(h, e);
  }

  lemma {:induction false} WithoutAbsent(h: seq<DiffIntentEntry>, e: DiffIntentEntry)
    requires e !in h
    ensures Without(h, e) == h
  {
    if h != [] {
      assert h[0] != e && e !in h[1..];
      WithoutAbsent(h[1..], e);
      calc {
        Without(h, e);
        [h[0]] + Without(h[1..], e);
        [h[0]] + h[1..];
        h;
      }
    }
  }

  /** Asking for the same intent twice in a row leaves the history of asking once. */
  lemma PushFrontIdempotent(h: seq<DiffIntentEntry>, e: DiffIntentEntry)
    ensures PushFront(PushFront(h, e), e) == PushFront(h, e)
  {
    var rest := Take(Without(h, e), HISTORY_KEEP);
    assert PushFront(h, e) == [e] + rest;
    WithoutAbsent(rest, e);
    WithoutDropsHead([e] + rest, e);
    assert ([e] + rest)[1..] == rest;
  }

  lemma WithoutDropsHead(h: seq<DiffIntentEntry>, e: DiffIntentEntry)
    requires |h| > 0 && h[0] == e
    ensures Without(h, e) == Without(h[1..], e)
  {
  }

  /** The head of the history, or `None` when it is empty. */
  function FirstOrNone(h: seq<DiffIntentEntry>): (r: Option<DiffIntentEntry>)
    ensures r.None? <==> h == []
    ensures r.Some? ==> r.value == h[0]
  {
    if h == [] then None else Some(h[0])
  }

  /** The newest entry of a history built by `PushFront` is the one pushed last. */
  lemma LastPushedIsFirst(h: seq<DiffIntentEntry>, e: DiffIntentEntry)
    ensures FirstOrNone(PushFront(h, e)) == Some(e)
  {
  }

  class DiffIntentProvider {
    var cloudIntents: seq<DiffIntentEntry>
    /** The settings' `diffIntentEntriesHistory`. */
    var history: seq<DiffIntentEntry>

    constructor (history: seq<DiffIntentEntry>)
      ensures cloudIntents == [] && this.history == history
    {
      cloudIntents := [];
      this.history := history;
    }

    /** The getter of `defaultThirdPartyFunctions`. */
    function DefaultThirdPartyFunctions(): (fs: seq<DiffIntentEntry>)
      reads this
      ensures fs == cloudIntents
    {
      cloudIntents
    }

    /** The setter of `defaultThirdPartyFunctions`: the getter then returns `fs`. */
    method SetDefaultThirdPartyFunctions(fs: seq<DiffIntentEntry>)
      modifies this`cloudIntents
      ensures DefaultThirdPartyFunctions() == fs
    {
      cloudIntents := fs;
    }

    /** The setter of `historyIntents`. */
    method SetHistoryIntents(h: seq<DiffIntentEntry>)
      modifies this`history
      ensures history == h
    {
      history := h;
    }

    method PushFrontHistoryIntent(e: DiffIntentEntry)
      modifies this`history
      ensures history == PushFront(old(history), e)
      ensures LastHistoryEntry() == Some(e)
    {
      var srcHints := Without(history, e);
      srcHints := srcHints[..if |srcHints| < HISTORY_KEEP then |srcHints| else HISTORY_KEEP];
      history := [e] + srcHints;
    }

    function LastHistoryEntry(): (r: Option<DiffIntentEntry>)
      reads this
      ensures r.None? <==> history == []
      ensures r.Some? ==> r.value == history[0]
    {
      FirstOrNone(history)
    }
  }
}
