/**
 * `ModeProvider`: one per editor, it forwards editor events to the active
 * mode and switches between the completion and the diff mode. Its companion
 * keeps a table of providers keyed by the editor's identity hash, which
 * evicts the oldest-created provider once it holds more than eight. The
 * modes themselves are named by their type; the calls the provider makes
 * into them are recorded in logs.
 */
module Modes {
  import opened Optional
  import opened MinBy

  datatype ModeType = Completion | Diff

  /** IntelliJ's `CompletionUtil.DUMMY_IDENTIFIER`, inserted by code completion while it computes variants. */
  const DUMMY_IDENTIFIER: string := "IntellijIdeaRulezzz "

  /** Kotlin's `toString()` of a nullable fragment: a missing event reads as "null". */
  function FragmentText(newFragment: Option<string>): (s: string)
    ensures newFragment.Some? ==> s == newFragment.value
    ensures newFragment.None? ==> s == "null"
  {
    match newFragment
    case Some(t) => t
    case None => "null"
  }

  /** An event is held back exactly when its new fragment is the dummy identifier. */
  predicate IsDummy(newFragment: Option<string>)
  {
    FragmentText(newFragment) == DUMMY_IDENTIFIER
  }

  /** A missing event is always forwarded; a present one is held back only for the dummy identifier. */
  lemma DummyFilterIff(newFragment: Option<string>)
    ensures IsDummy(newFragment) <==> newFragment == Some(DUMMY_IDENTIFIER)
  {
    if newFragment.None? {
      assert |FragmentText(newFragment)| != |DUMMY_IDENTIFIER|;
    }
  }

  /** An event handed to the active mode. */
  datatype Forwarded =
    | BeforeChange(mode: ModeType, newFragment: Option<string>)
    | TextChange(mode: ModeType, newFragment: Option<string>, force: bool)
    | CaretChange(mode: ModeType)
    | TabPressed(mode: ModeType)
    | EscPressed(mode: ModeType)

  /** `switchMode` on values: the new active mode, and the modes cleaned up so far. */
  function AfterSwitch(active: ModeType, cleaned: seq<ModeType>, newMode: ModeType): (r: (ModeType, seq<ModeType>))
    ensures r.0 == newMode
    ensures active == newMode ==> r.1 == cleaned
    ensures active != newMode ==> r.1 == cleaned + [active]
  {
    if active == newMode then (active, cleaned) else (newMode, cleaned + [active])
  }

  /** Switching twice to the same mode is switching once. */
  lemma SwitchIdempotent(active: ModeType, cleaned: seq<ModeType>, newMode: ModeType)
    ensures var once := AfterSwitch(active, cleaned, newMode);
            AfterSwitch(once.0, once.1, newMode) == once
  {
  }

  class ModeProvider {
    const editorId: int
    var activeMode: ModeType
    /** The modes whose `cleanup` was called, in order. */
    var cleaned: seq<ModeType>
    /** The events handed to the active mode, in order. */
    var forwarded: seq<Forwarded>

    constructor (editorId: int)
      ensures this.editorId == editorId
      ensures activeMode == Completion && cleaned == [] && forwarded == []
    {
      this.editorId := editorId;
      activeMode := Completion;
      cleaned := [];
      forwarded := [];
    }

    function IsInCompletionMode(): (b: bool)
      reads this
      ensures b <==> activeMode == Completion
    {
      activeMode == Completion
    }

    function IsDiffMode(): (b: bool)
      reads this
      ensures b <==> activeMode == Diff
      ensures b ==> !IsInCompletionMode()
    {
      activeMode == Diff
    }

    /** `onCaretChange`: handed to the active mode unfiltered. */
    method OnCaretChange()
      modifies this`forwarded
      ensures forwarded == old(forwarded) + [CaretChange(activeMode)]
    {
      forwarded := forwarded + [CaretChange(activeMode)];
    }

    /** `onTabPressed`: handed to the active mode unfiltered. */
    method OnTabPressed()
      modifies this`forwarded
      ensures forwarded == old(forwarded) + [TabPressed(activeMode)]
    {
      forwarded := forwarded + [TabPressed(activeMode)];
    }

    /** `onEscPressed`: handed to the active mode unfiltered. */
    method OnEscPressed()
      modifies this`forwarded
      ensures forwarded == old(forwarded) + [EscPressed(activeMode)]
    {
      forwarded := forwarded + [EscPressed(activeMode)];
    }

    method BeforeDocumentChangeNonBulk(newFragment: Option<string>)
      modifies this`forwarded
      ensures forwarded == if IsDummy(newFragment) then old(forwarded)
                           else old(forwarded) + [BeforeChange(activeMode, newFragment)]
    {
      if FragmentText(newFragment) == DUMMY_IDENTIFIER {
        return;
      }
      forwarded := forwarded + [BeforeChange(activeMode, newFragment)];
    }

    method OnTextChange(newFragment: Option<string>, force: bool)
      modifies this`forwarded
      ensures forwarded == if IsDummy(newFragment) then old(forwarded)
                           else old(forwarded) + [TextChange(activeMode, newFragment, force)]
    {
      if FragmentText(newFragment) == DUMMY_IDENTIFIER {
        return;
      }
      forwarded := forwarded + [TextChange(activeMode, newFragment, force)];
    }

    /** `switchMode`; the source's default target is `Completion`. */
    method SwitchMode(newMode: ModeType)
      modifies this`activeMode, this`cleaned
      ensures (activeMode, cleaned) == AfterSwitch(old(activeMode), old(cleaned), newMode)
    {
      if activeMode == newMode {
        return;
      }
      cleaned := cleaned + [activeMode];
      activeMode := newMode;
    }
  }

  /** The companion's size threshold. */
  const MAX_EDITORS: nat := 8

  ghost predicate Distinct(s: seq<int>)
  {
    forall i, j :: 0 <= i < j < |s| ==> s[i] != s[j]
  }

  /** A sequence without repeats has as many distinct elements as it has elements. */
  lemma {:induction false} DistinctSize(s: seq<int>)
    requires Distinct(s)
    ensures |set x | x in s| == |s|
  {
    if s != [] {
      var rest := s[1..];
      DistinctSize(rest);
      assert (set x | x in s) == {s[0]} + (set x | x in rest) by {
        assert s == [s[0]] + rest;
      }
      assert s[0] !in rest;
    }
  }

  /** The creation timestamps in insertion order. */
  function CreatedInOrder(order: seq<int>, createdAt: map<int, int>): (ts: seq<int>)
    requires forall i :: 0 <= i < |order| ==> order[i] in createdAt
    ensures |ts| == |order|
    ensures forall i :: 0 <= i < |order| ==> ts[i] == createdAt[order[i]]
  {
    seq(|order|, i requires 0 <= i < |order| => createdAt[order[i]])
  }

  /** The key `getOrCreateModeProvider` evicts: none up to eight entries, else the first oldest-created. */
  function EvictedKey(order: seq<int>, createdAt: map<int, int>): (k: Option<int>)
    requires forall i :: 0 <= i < |order| ==> order[i] in createdAt
    ensures k.None? <==> |order| <= MAX_EDITORS
    ensures k.Some? ==> && k.value in order
                        && (forall j :: 0 <= j < |order| ==> createdAt[k.value] <= createdAt[order[j]])
    ensures k.Some? ==> exists i :: && 0 <= i < |order| && order[i] == k.value
                                    && (forall j :: 0 <= j < i ==> createdAt[order[j]] > createdAt[k.value])
  {
    if |order| <= MAX_EDITORS then None
    else
      var ts := CreatedInOrder(order, createdAt);
      var i := FirstMinIndex(ts);
      assert forall j :: 0 <= j < i ==> createdAt[order[j]] > createdAt[order[i]] by {
        forall j | 0 <= j < i ensures createdAt[order[j]] > createdAt[order[i]] {
          assert ts[j] > ts[i];
        }
      }
      Some(order[i])
  }

  /** `remove(k)` on the insertion order: every occurrence of `k` goes, the rest keep their order. */
  function RemoveKey(order: seq<int>, k: int): (r: seq<int>)
    ensures forall x :: x in r <==> x in order && x != k
    ensures |r| <= |order|
    ensures k in order ==> |r| < |order|
  {
    if order == [] then []
    else (if order[0] == k then [] else [order[0]]) + RemoveKey(order[1..], k)
  }

  /** Removing a key the order does not hold changes nothing. */
  lemma {:induction false} RemoveKeyAbsent(order: seq<int>, k: int)
    requires k !in order
    ensures RemoveKey(order, k) == order
  {
    if order != [] {
      RemoveKeyAbsent(order[1..], k);
      assert order == [order[0]] + order[1..];
    }
  }

  /**
   * Removing the key at position `i` of a repeat-free order cuts exactly that
   * position out: the keys before and after it keep their relative order.
   */
  lemma {:induction false} RemoveKeyAt(order: seq<int>, i: nat)
    requires Distinct(order) && i < |order|
    ensures RemoveKey(order, order[i]) == order[..i] + order[i + 1..]
  {
    var k := order[i];
    if i == 0 {
      assert order[0] !in order[1..];
      RemoveKeyAbsent(order[1..], k);
    } else {
      var tail := order[1..];
      assert Distinct(tail);
      assert tail[i - 1] == k;
      assert order[0] != k;
      RemoveKeyAt(tail, i - 1);
      calc {
        RemoveKey(order, k);
        [order[0]] + RemoveKey(tail, k);
        [order[0]] + (tail[..i - 1] + tail[i..]);
        { assert [order[0]] + tail[..i - 1] == order[..i]; assert tail[i..] == order[i + 1..]; }
        order[..i] + order[i + 1..];
      }
    }
  }

  /** The two maps share their keys, and `order` lists each key once. */
  ghost predicate Table<V>(order: seq<int>, createdAt: map<int, int>, providers: map<int, V>)
  {
    && Distinct(order)
    && (forall k :: k in order <==> k in createdAt)
    && (forall i :: 0 <= i < |order| ==> order[i] in createdAt)
    && (forall k :: k in createdAt <==> k in providers)
  }

  /** Removing the evicted key keeps the order free of repeats. */
  lemma {:induction false} RemoveKeyDistinct(order: seq<int>, k: int)
    requires Distinct(order)
    ensures Distinct(RemoveKey(order, k))
  {
    if order != [] {
      RemoveKeyDistinct(order[1..], k);
      var rest := RemoveKey(order[1..], k);
      assert forall x :: x in rest ==> x in order[1..];
      assert order[0] !in order[1..];
    }
  }

  lemma TableRemove<V>(order: seq<int>, createdAt: map<int, int>, providers: map<int, V>, k: int)
    requires Table(order, createdAt, providers)
    ensures Table(RemoveKey(order, k), createdAt - {k}, providers - {k})
  {
    RemoveKeyDistinct(order, k);
    var r := RemoveKey(order, k);
    assert forall i :: 0 <= i < |r| ==> r[i] in r;
  }

  lemma TableAdd<V>(order: seq<int>, createdAt: map<int, int>, providers: map<int, V>, k: int, t: int, v: V)
    requires Table(order, createdAt, providers) && k !in createdAt
    ensures Table(order + [k], createdAt[k := t], providers[k := v])
  {
    var r := order + [k];
    assert forall x :: x in r <==> x in order || x == k;
  }

  /** The companion's two `LinkedHashMap`s, with the insertion order of their keys. */
  class ProviderTable {
    var order: seq<int>
    var createdAt: map<int, int>
    var providers: map<int, ModeProvider>

    ghost predicate Valid()
      reads this
    {
      Table(order, createdAt, providers) && |order| <= MAX_EDITORS + 1
    }

    constructor ()
      ensures Valid() && order == [] && createdAt == map[] && providers == map[]
    {
      order := [];
      createdAt := map[];
      providers := map[];
    }

    /** Both maps always hold as many entries as the order lists, at most nine. */
    lemma SizeBound()
      requires Valid()
      ensures |providers| == |createdAt| == |order| <= MAX_EDITORS + 1
    {
      DistinctSize(order);
      assert providers.Keys == set x | x in order by {
        forall x ensures x in providers.Keys <==> x in order {}
      }
      assert createdAt.Keys == set x | x in order by {
        forall x ensures x in createdAt.Keys <==> x in order {}
      }
    }

    /** The eviction step: with more than eight entries, the first oldest-created one goes. */
    method EvictOldest()
      requires Valid()
      modifies this
      ensures Table(order, createdAt, providers) && |order| <= MAX_EDITORS
      ensures var gone := EvictedKey(old(order), old(createdAt));
              && order == (if gone.Some? then RemoveKey(old(order), gone.value) else old(order))
              && createdAt == (if gone.Some? then old(createdAt) - {gone.value} else old(createdAt))
              && providers == (if gone.Some? then old(providers) - {gone.value} else old(providers))
    {
      var gone := EvictedKey(order, createdAt);
      if gone.Some? {
        var toRemove := gone.value;
        TableRemove(order, createdAt, providers, toRemove);
        order := RemoveKey(order, toRemove);
        createdAt := createdAt - {toRemove};
        providers := providers - {toRemove};
      }
    }

    /**
     * `getOrCreateModeProvider`: first evicts the oldest-created provider
     * when more than eight are held, then returns the provider for `hashId`,
     * creating and timestamping it with `now` only when there is none.
     */
    method GetOrCreate(hashId: int, now: int) returns (p: ModeProvider)
      requires Valid()
      modifies this
      ensures Valid()
      ensures hashId in providers && p == providers[hashId]
      ensures var gone := EvictedKey(old(order), old(createdAt));
              var kept := if gone.Some? then old(createdAt) - {gone.value} else old(createdAt);
              var keptOrder := if gone.Some? then RemoveKey(old(order), gone.value) else old(order);
              && (hashId in kept ==> createdAt == kept && order == keptOrder && p == old(providers)[hashId])
              && (hashId !in kept ==> && createdAt == kept[hashId := now] && order == keptOrder + [hashId]
                                      && fresh(p) && p.activeMode == Completion)
              && (forall k :: k in kept ==> k in providers && providers[k] == old(providers)[k])
    {
      EvictOldest();
      if hashId in providers {
        p := providers[hashId];
        return;
      }
      p := new ModeProvider(hashId);
      TableAdd(order, createdAt, providers, hashId, now, p);
      createdAt := createdAt[hashId := now];
      order := order + [hashId];
      providers := providers[hashId := p];
    }
  }
}
