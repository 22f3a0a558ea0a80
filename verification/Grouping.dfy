/** What the reducer computes, said without the reducer: one item per key, made from that key's events alone. */
module Grouping {
  import opened Wrappers
  import opened Sequences
  import opened Conversation

  /** The items after a whole event stream. */
  function Folded(es: seq<ConversationEvent>): seq<TranscriptItem> {
    if es == [] then [] else Applied(Folded(Init(es)), Last(es))
  }

  // ---------- One key's events ----------

  /** The updates for `key`, in order of arrival. */
  function UpdatesFor(es: seq<ConversationEvent>, key: Key): (us: seq<Update>)
    ensures us != [] ==> Suits(key.kind, Last(us))
  {
    if es == [] then []
    else if EventKey(Last(es)) == Some(key) then UpdatesFor(Init(es), key) + [EventUpdate(Last(es))]
    else UpdatesFor(Init(es), key)
  }

  // The value an update supplies for each field, if it supplies one.

  function TextOf(u: Update): string {
    match u
    case SetText(text) => text
    case MoreText(text, _) => text
    case ToolFields(_, _, _, _, _) => ""
    case TerminalFields(_, output, _) => GetOr(output, "")
  }

  function TitleOf(u: Update): Option<string> {
    if u.ToolFields? || u.TerminalFields? then u.title else None
  }

  function StatusOf(u: Update): Option<string> {
    if u.ToolFields? then u.status else None
  }

  function DetailOf(u: Update): Option<string> {
    if u.ToolFields? then u.detail else None
  }

  function InputOf(u: Update): Option<string> {
    if u.ToolFields? then u.rawInput else None
  }

  function ResultOf(u: Update): Option<string> {
    if u.ToolFields? then u.rawOutput else None
  }

  function ExitCodeOf(u: Update): Option<int> {
    if u.TerminalFields? then u.exitCode else None
  }

  function Texts(us: seq<Update>): string {
    if us == [] then "" else Texts(Init(us)) + TextOf(Last(us))
  }

  /** The last value that was actually supplied for a field. */
  function LastGiven<T>(us: seq<Update>, field: Update -> Option<T>): Option<T> {
    if us == [] then None else Or(field(Last(us)), LastGiven(Init(us), field))
  }

  /**
    The item that a key's updates amount to: a user text is the last one, streamed text is the
    concatenation of all chunks, every tool and terminal field is the last value supplied, and
    terminal output is concatenated.
   */
  function Summary(key: Key, us: seq<Update>): TranscriptItem
    requires us != [] && Suits(key.kind, Last(us))
  {
    match key.kind
    case UserItem => User(key.id, Last(us).text)
    case AssistantItem => Assistant(key.id, Texts(us), !Last(us).completed)
    case ThoughtItem => Thought(key.id, Texts(us), !Last(us).completed)
    case ToolItem =>
      Tool(key.id, GetOr(LastGiven(us, TitleOf), ""), LastGiven(us, StatusOf), LastGiven(us, DetailOf),
           LastGiven(us, InputOf), LastGiven(us, ResultOf))
    case TerminalItem =>
      Terminal(key.id, GetOr(LastGiven(us, TitleOf), "Terminal"), Texts(us), LastGiven(us, ExitCodeOf))
  }

  lemma {:induction false} LastGivenAppend<T>(us: seq<Update>, u: Update, field: Update -> Option<T>)
    ensures LastGiven(us + [u], field) == Or(field(u), LastGiven(us, field))
  {
    InitOfAppend(us, u);
  }

  lemma {:induction false} TextsAppend(us: seq<Update>, u: Update)
    ensures Texts(us + [u]) == Texts(us) + TextOf(u)
  {
    InitOfAppend(us, u);
  }

  lemma {:induction false} ToolFieldsAppend(us: seq<Update>, u: Update)
    requires u.ToolFields?
    ensures LastGiven(us + [u], TitleOf) == Or(u.title, LastGiven(us, TitleOf))
    ensures LastGiven(us + [u], StatusOf) == Or(u.status, LastGiven(us, StatusOf))
    ensures LastGiven(us + [u], DetailOf) == Or(u.detail, LastGiven(us, DetailOf))
    ensures LastGiven(us + [u], InputOf) == Or(u.rawInput, LastGiven(us, InputOf))
    ensures LastGiven(us + [u], ResultOf) == Or(u.rawOutput, LastGiven(us, ResultOf))
  {
    LastGivenAppend(us, u, TitleOf);
    LastGivenAppend(us, u, StatusOf);
    LastGivenAppend(us, u, DetailOf);
    LastGivenAppend(us, u, InputOf);
    LastGivenAppend(us, u, ResultOf);
  }

  lemma {:induction false} TerminalFieldsAppend(us: seq<Update>, u: Update)
    requires u.TerminalFields?
    ensures LastGiven(us + [u], TitleOf) == Or(u.title, LastGiven(us, TitleOf))
    ensures Texts(us + [u]) == Texts(us) + GetOr(u.output, "")
    ensures LastGiven(us + [u], ExitCodeOf) == Or(u.exitCode, LastGiven(us, ExitCodeOf))
  {
    LastGivenAppend(us, u, TitleOf);
    TextsAppend(us, u);
    LastGivenAppend(us, u, ExitCodeOf);
  }

  lemma {:induction false} LastGivenOfOne<T>(us: seq<Update>, field: Update -> Option<T>)
    requires us != [] && Init(us) == []
    ensures LastGiven(us, field) == field(Last(us))
  {
  }

  lemma {:induction false} SummaryOfOne(key: Key, us: seq<Update>)
    requires us != [] && Init(us) == [] && Suits(key.kind, Last(us))
    ensures Summary(key, us) == Fresh(key, Last(us))
  {
    assert Texts(us) == "" + TextOf(Last(us)) == TextOf(Last(us));
    LastGivenOfOne(us, TitleOf);
    LastGivenOfOne(us, StatusOf);
    LastGivenOfOne(us, DetailOf);
    LastGivenOfOne(us, InputOf);
    LastGivenOfOne(us, ResultOf);
    LastGivenOfOne(us, ExitCodeOf);
  }

  lemma {:induction false} SummaryOfMore(key: Key, us: seq<Update>, u: Update)
    requires us != [] && Suits(key.kind, Last(us)) && Suits(key.kind, u)
    ensures ItemKey(Summary(key, us)) == Some(key)
    ensures Summary(key, us + [u]) == Merged(Summary(key, us), u)
  {
    match key.kind
    case UserItem =>
    case AssistantItem => TextsAppend(us, u);
    case ThoughtItem => TextsAppend(us, u);
    case ToolItem => ToolFieldsAppend(us, u);
    case TerminalItem => TerminalFieldsAppend(us, u);
  }

  // ---------- The grouping theorem ----------

  predicate Seen(es: seq<ConversationEvent>, key: Key) {
    es != [] && (EventKey(Last(es)) == Some(key) || Seen(Init(es), key))
  }

  lemma {:induction false} SeenMeansUpdates(es: seq<ConversationEvent>, key: Key)
    ensures Seen(es, key) <==> UpdatesFor(es, key) != []
  {
    if es != [] {
      SeenMeansUpdates(Init(es), key);
    }
  }

  /** The positions of the events that open an item: notices, and first events of a key. */
  function Openers(es: seq<ConversationEvent>): seq<nat> {
    if es == [] then []
    else
      match EventKey(Last(es))
      case Some(key) => if Seen(Init(es), key) then Openers(Init(es)) else Openers(Init(es)) + [|es| - 1]
      case None => Openers(Init(es)) + [|es| - 1]
  }

  lemma {:induction false} OpenersAreEvents(es: seq<ConversationEvent>, j: nat)
    requires j < |Openers(es)|
    ensures Openers(es)[j] < |es|
    ensures EventKey(es[Openers(es)[j]]).Some? ==> Seen(es, EventKey(es[Openers(es)[j]]).value)
  {
    if j < |Openers(Init(es))| {
      OpenersAreEvents(Init(es), j);
    }
  }

  /** The item opened by event `i`, made from all of the stream's events with the same key. */
  function ItemOpenedBy(es: seq<ConversationEvent>, i: nat): TranscriptItem
    requires i < |es|
    requires EventKey(es[i]).Some? ==> Seen(es, EventKey(es[i]).value)
  {
    match EventKey(es[i])
    case Some(key) =>
      SeenMeansUpdates(es, key);
      Summary(key, UpdatesFor(es, key))
    case None => Notice(es[i].text)
  }

  ghost predicate IsGrouped(es: seq<ConversationEvent>, items: seq<TranscriptItem>) {
    && |items| == |Openers(es)|
    && forall j :: 0 <= j < |items| ==> IsGroupedAt(es, items, j)
  }

  ghost predicate IsGroupedAt(es: seq<ConversationEvent>, items: seq<TranscriptItem>, j: nat)
    requires |items| == |Openers(es)| && j < |items|
  {
    OpenersAreEvents(es, j);
    items[j] == ItemOpenedBy(es, Openers(es)[j])
  }

  /** Two items never share a key, and a key has an item exactly when it was seen. */
  ghost predicate KeysAreRight(es: seq<ConversationEvent>, items: seq<TranscriptItem>) {
    && (forall i, j :: 0 <= i < j < |items| && ItemKey(items[i]).Some? ==> ItemKey(items[i]) != ItemKey(items[j]))
    && (forall key: Key :: Seen(es, key) <==> exists j :: 0 <= j < |items| && ItemKey(items[j]) == Some(key))
  }

  lemma {:induction false} KeysAfterPush(es: seq<ConversationEvent>, before: seq<TranscriptItem>, item: TranscriptItem)
    requires es != [] && KeysAreRight(Init(es), before) && ItemKey(item) == EventKey(Last(es))
    requires forall j :: 0 <= j < |before| && ItemKey(before[j]).Some? ==> ItemKey(before[j]) != ItemKey(item)
    ensures KeysAreRight(es, before + [item])
  {
    var after := before + [item];
    assert forall j :: 0 <= j < |before| ==> after[j] == before[j];
    assert after[|before|] == item;
    forall key: Key ensures Seen(es, key) <==> exists j :: 0 <= j < |after| && ItemKey(after[j]) == Some(key) {
      if EventKey(Last(es)) == Some(key) {
        assert ItemKey(after[|before|]) == Some(key);
      } else if Seen(Init(es), key) {
        var j :| 0 <= j < |before| && ItemKey(before[j]) == Some(key);
        assert ItemKey(after[j]) == Some(key);
      }
    }
  }

  lemma {:induction false} KeysAfterUpdate(es: seq<ConversationEvent>, before: seq<TranscriptItem>,
      after: seq<TranscriptItem>, i: nat)
    requires es != [] && KeysAreRight(Init(es), before) && EventKey(Last(es)).Some?
    requires |after| == |before| && forall j :: 0 <= j < |before| ==> ItemKey(after[j]) == ItemKey(before[j])
    requires i < |before| && ItemKey(before[i]) == EventKey(Last(es))
    ensures KeysAreRight(es, after)
  {
    forall key: Key ensures Seen(es, key) <==> exists j :: 0 <= j < |after| && ItemKey(after[j]) == Some(key) {
      if exists j :: 0 <= j < |after| && ItemKey(after[j]) == Some(key) {
        var j :| 0 <= j < |after| && ItemKey(after[j]) == Some(key);
        assert ItemKey(before[j]) == Some(key);
      }
      if Seen(Init(es), key) {
        var j :| 0 <= j < |before| && ItemKey(before[j]) == Some(key);
        assert ItemKey(after[j]) == Some(key);
      }
      if EventKey(Last(es)) == Some(key) {
        assert ItemKey(after[i]) == Some(key);
      }
    }
  }

  lemma {:induction false} FoldedKeys(es: seq<ConversationEvent>)
    ensures KeysAreRight(es, Folded(es))
  {
    if es != [] {
      FoldedKeys(Init(es));
      var before := Folded(Init(es));
      match EventKey(Last(es))
      case None => KeysAfterPush(es, before, Notice(Last(es).text));
      case Some(key) =>
        var i := Find(before, key, 0);
        if i < |before| {
          KeysAfterUpdate(es, before, Folded(es), i);
        } else {
          KeysAfterPush(es, before, Fresh(key, EventUpdate(Last(es))));
        }
    }
  }

  lemma {:induction false} SummaryKey(key: Key, us: seq<Update>)
    requires us != [] && Suits(key.kind, Last(us))
    ensures ItemKey(Summary(key, us)) == Some(key)
  {
  }

  lemma {:induction false} KeyOfItemOpenedBy(es: seq<ConversationEvent>, i: nat)
    requires i < |es|
    requires EventKey(es[i]).Some? ==> Seen(es, EventKey(es[i]).value)
    ensures ItemKey(ItemOpenedBy(es, i)) == EventKey(es[i])
  {
    if EventKey(es[i]).Some? {
      var key := EventKey(es[i]).value;
      SeenMeansUpdates(es, key);
      SummaryKey(key, UpdatesFor(es, key));
    }
  }

  /** An event leaves alone every item whose key is not its own. */
  lemma {:induction false} UntouchedItem(es: seq<ConversationEvent>, j: nat)
    requires es != [] && j < |Openers(Init(es))|
    requires var i := Openers(Init(es))[j];
      && i < |es| - 1
      && (EventKey(es[i]).Some? ==> Seen(Init(es), EventKey(es[i]).value))
      && (EventKey(Last(es)).None? || EventKey(es[i]) != EventKey(Last(es)))
    ensures var i := Openers(Init(es))[j];
      && Openers(es)[j] == i
      && (EventKey(es[i]).Some? ==> Seen(es, EventKey(es[i]).value))
      && ItemOpenedBy(es, i) == ItemOpenedBy(Init(es), i)
  {
  }

  /** An item of the earlier stream whose key the last event does not have is still as it should be. */
  lemma {:induction false} StillGrouped(es: seq<ConversationEvent>, before: seq<TranscriptItem>, j: nat)
    requires es != [] && |before| == |Openers(Init(es))| && j < |before| && IsGroupedAt(Init(es), before, j)
    requires EventKey(Last(es)).None? || ItemKey(before[j]) != EventKey(Last(es))
    ensures j < |Openers(es)| && Openers(es)[j] < |es|
    ensures EventKey(es[Openers(es)[j]]).Some? ==> Seen(es, EventKey(es[Openers(es)[j]]).value)
    ensures before[j] == ItemOpenedBy(es, Openers(es)[j])
  {
    OpenersAreEvents(Init(es), j);
    KeyOfItemOpenedBy(Init(es), Openers(Init(es))[j]);
    UntouchedItem(es, j);
  }

  lemma {:induction false} FirstUpdate(es: seq<ConversationEvent>, key: Key)
    requires es != [] && EventKey(Last(es)) == Some(key) && !Seen(Init(es), key)
    ensures var us := UpdatesFor(es, key); us != [] && Init(us) == [] && Last(us) == EventUpdate(Last(es))
  {
    SeenMeansUpdates(Init(es), key);
  }

  lemma {:induction false} NextUpdate(es: seq<ConversationEvent>, key: Key)
    requires es != [] && EventKey(Last(es)) == Some(key)
    ensures UpdatesFor(es, key) == UpdatesFor(Init(es), key) + [EventUpdate(Last(es))]
  {
  }

  lemma {:induction false} OpenedItem(es: seq<ConversationEvent>, key: Key, o: nat)
    requires o < |es| && EventKey(es[o]) == Some(key) && Seen(es, key)
    ensures UpdatesFor(es, key) != [] && ItemOpenedBy(es, o) == Summary(key, UpdatesFor(es, key))
  {
    SeenMeansUpdates(es, key);
  }

  /** The item a key's first event creates. */
  lemma {:induction false} FirstSummary(es: seq<ConversationEvent>, key: Key)
    requires es != [] && EventKey(Last(es)) == Some(key) && !Seen(Init(es), key)
    ensures Seen(es, key) && ItemOpenedBy(es, |es| - 1) == Fresh(key, EventUpdate(Last(es)))
  {
    FirstUpdate(es, key);
    SummaryOfOne(key, UpdatesFor(es, key));
    OpenedItem(es, key, |es| - 1);
  }

  lemma {:induction false} FirstOfKey(es: seq<ConversationEvent>)
    requires es != []
    requires EventKey(Last(es)).Some? ==> !Seen(Init(es), EventKey(Last(es)).value)
    ensures Folded(es) == Folded(Init(es)) + [ItemOpenedBy(es, |es| - 1)]
  {
    if EventKey(Last(es)).Some? {
      var key := EventKey(Last(es)).value;
      UnseenKeyHasNoItem(Init(es), key);
      assert Find(Folded(Init(es)), key, 0) == |Folded(Init(es))|;
      FirstSummary(es, key);
    }
  }

  lemma {:induction false} UnseenKeyHasNoItem(es: seq<ConversationEvent>, key: Key)
    requires !Seen(es, key)
    ensures forall j :: 0 <= j < |Folded(es)| ==> ItemKey(Folded(es)[j]) != Some(key)
  {
    FoldedKeys(es);
  }

  lemma {:induction false} SeenKeyHasOneItem(es: seq<ConversationEvent>, key: Key) returns (i: nat)
    requires Seen(es, key)
    ensures i == Find(Folded(es), key, 0) < |Folded(es)|
    ensures forall j :: 0 <= j < |Folded(es)| && j != i ==> ItemKey(Folded(es)[j]) != Some(key)
  {
    FoldedKeys(es);
    i := Find(Folded(es), key, 0);
  }

  lemma {:induction false} GroupedNewest(es: seq<ConversationEvent>)
    requires es != [] && |Folded(Init(es))| == |Openers(Init(es))|
    requires EventKey(Last(es)).Some? ==> !Seen(Init(es), EventKey(Last(es)).value)
    ensures |Folded(es)| == |Openers(es)| == |Folded(Init(es))| + 1
    ensures IsGroupedAt(es, Folded(es), |Folded(es)| - 1)
    ensures forall j :: 0 <= j < |Folded(es)| - 1 ==> Folded(es)[j] == Folded(Init(es))[j]
  {
    FirstOfKey(es);
  }

  lemma {:induction false} GroupedCarries(es: seq<ConversationEvent>, j: nat)
    requires es != [] && IsGrouped(Init(es), Folded(Init(es))) && j < |Folded(Init(es))|
    requires |Folded(es)| == |Openers(es)| && j < |Folded(es)| && Folded(es)[j] == Folded(Init(es))[j]
    requires EventKey(Last(es)).None? || ItemKey(Folded(Init(es))[j]) != EventKey(Last(es))
    ensures IsGroupedAt(es, Folded(es), j)
  {
    assert IsGroupedAt(Init(es), Folded(Init(es)), j);
    StillGrouped(es, Folded(Init(es)), j);
  }

  /** The event `Last(es)` opens a new item, which the reducer appends. */
  lemma {:induction false} GroupedByNewItem(es: seq<ConversationEvent>)
    requires es != [] && IsGrouped(Init(es), Folded(Init(es)))
    requires EventKey(Last(es)).Some? ==> !Seen(Init(es), EventKey(Last(es)).value)
    ensures IsGrouped(es, Folded(es))
  {
    if EventKey(Last(es)).Some? {
      UnseenKeyHasNoItem(Init(es), EventKey(Last(es)).value);
    }
    GroupedNewest(es);
    forall j | 0 <= j < |Folded(es)| ensures IsGroupedAt(es, Folded(es), j) {
      if j < |Folded(es)| - 1 {
        GroupedCarries(es, j);
      }
    }
  }

  /** The item opened by event `o` takes one more update of its key. */
  lemma {:induction false} OpenedItemGrows(es: seq<ConversationEvent>, key: Key, o: nat)
    requires es != [] && o < |es| - 1 && EventKey(es[o]) == Some(key) == EventKey(Last(es)) && Seen(Init(es), key)
    ensures Seen(es, key)
    ensures ItemKey(ItemOpenedBy(Init(es), o)) == Some(key)
    ensures ItemOpenedBy(es, o) == Merged(ItemOpenedBy(Init(es), o), EventUpdate(Last(es)))
  {
    OpenedItem(Init(es), key, o);
    OpenedItem(es, key, o);
    NextUpdate(es, key);
    SummaryOfMore(key, UpdatesFor(Init(es), key), EventUpdate(Last(es)));
  }

  lemma {:induction false} FoldedUpdated(es: seq<ConversationEvent>, key: Key, i: nat)
    requires es != [] && EventKey(Last(es)) == Some(key)
    requires i == Find(Folded(Init(es)), key, 0) < |Folded(Init(es))|
    ensures |Folded(es)| == |Folded(Init(es))|
    ensures Folded(es)[i] == Merged(Folded(Init(es))[i], EventUpdate(Last(es)))
  {
  }

  lemma {:induction false} GroupedUpdated(es: seq<ConversationEvent>, key: Key, i: nat)
    requires es != [] && IsGrouped(Init(es), Folded(Init(es)))
    requires EventKey(Last(es)) == Some(key) && Seen(Init(es), key)
    requires i == Find(Folded(Init(es)), key, 0) < |Folded(Init(es))|
    ensures |Folded(es)| == |Openers(es)| == |Folded(Init(es))| && IsGroupedAt(es, Folded(es), i)
  {
    var prior, o := Init(es), Openers(Init(es))[i];
    assert IsGroupedAt(prior, Folded(prior), i);
    OpenersAreEvents(prior, i);
    KeyOfItemOpenedBy(prior, o);
    OpenedItemGrows(es, key, o);
    FoldedUpdated(es, key, i);
    assert Openers(es)[i] == o;
  }

  /** The event `Last(es)` updates the one item that has its key. */
  lemma {:induction false} GroupedByUpdate(es: seq<ConversationEvent>, key: Key)
    requires es != [] && IsGrouped(Init(es), Folded(Init(es)))
    requires EventKey(Last(es)) == Some(key) && Seen(Init(es), key)
    ensures IsGrouped(es, Folded(es))
  {
    var i := SeenKeyHasOneItem(Init(es), key);
    GroupedUpdated(es, key, i);
    forall j | 0 <= j < |Folded(es)| ensures IsGroupedAt(es, Folded(es), j) {
      if j != i {
        GroupedCarries(es, j);
      }
    }
  }

  /**
    The reducer's items are exactly the distinct keys in order of first occurrence, each made from
    that key's events alone, with every notice an item of its own.
   */
  lemma {:induction false} FoldedIsGrouped(es: seq<ConversationEvent>)
    ensures IsGrouped(es, Folded(es))
  {
    if es != [] {
      FoldedIsGrouped(Init(es));
      if EventKey(Last(es)).Some? && Seen(Init(es), EventKey(Last(es)).value) {
        GroupedByUpdate(es, EventKey(Last(es)).value);
      } else {
        GroupedByNewItem(es);
      }
    }
  }

  /** Looking an item up by its key: there is exactly one, and it is the summary of that key's updates. */
  lemma {:induction false} ItemOfKey(es: seq<ConversationEvent>, key: Key) returns (j: nat)
    requires Seen(es, key)
    ensures UpdatesFor(es, key) != []
    ensures j < |Folded(es)| && Folded(es)[j] == Summary(key, UpdatesFor(es, key))
    ensures forall k :: 0 <= k < |Folded(es)| && k != j ==> ItemKey(Folded(es)[k]) != Some(key)
  {
    SeenMeansUpdates(es, key);
    FoldedKeys(es);
    FoldedIsGrouped(es);
    j :| 0 <= j < |Folded(es)| && ItemKey(Folded(es)[j]) == Some(key);
    assert IsGroupedAt(es, Folded(es), j);
    OpenersAreEvents(es, j);
    KeyOfItemOpenedBy(es, Openers(es)[j]);
    assert EventKey(es[Openers(es)[j]]) == Some(key);
  }

  // ---------- Growing streams ----------

  /** The streamed or captured text of an item: what later events may only extend. */
  function StreamText(item: TranscriptItem): string {
    match item
    case Assistant(_, text, _) => text
    case Thought(_, text, _) => text
    case Terminal(_, _, output, _) => output
    case _ => ""
  }

  /** `after` starts with the items of `before`, same keys in the same places, texts only extended. */
  ghost predicate Extends(before: seq<TranscriptItem>, after: seq<TranscriptItem>) {
    && |before| <= |after|
    && forall j :: 0 <= j < |before| ==>
         ItemKey(after[j]) == ItemKey(before[j]) && StreamText(before[j]) <= StreamText(after[j])
  }

  lemma {:induction false} AppliedExtends(items: seq<TranscriptItem>, e: ConversationEvent)
    ensures Extends(items, Applied(items, e)) && |Applied(items, e)| <= |items| + 1
  {
  }

  lemma {:induction false} ExtendsTransitive(a: seq<TranscriptItem>, b: seq<TranscriptItem>, c: seq<TranscriptItem>)
    requires Extends(a, b) && Extends(b, c)
    ensures Extends(a, c)
  {
    forall j | 0 <= j < |a| ensures ItemKey(c[j]) == ItemKey(a[j]) && StreamText(a[j]) <= StreamText(c[j]) {
      assert ItemKey(b[j]) == ItemKey(a[j]) && StreamText(a[j]) <= StreamText(b[j]);
    }
  }

  /** Appending events extends the items, by at most one new item an event. */
  lemma {:induction false} FoldedExtends(es: seq<ConversationEvent>, more: seq<ConversationEvent>)
    ensures Extends(Folded(es), Folded(es + more)) && |Folded(es + more)| <= |Folded(es)| + |more|
  {
    if more == [] {
      assert es + more == es;
    } else {
      FoldedExtends(es, Init(more));
      assert Init(es + more) == es + Init(more) && Last(es + more) == Last(more);
      AppliedExtends(Folded(es + Init(more)), Last(more));
      ExtendsTransitive(Folded(es), Folded(es + Init(more)), Folded(es + more));
    }
  }

  // ---------- Many threads, one stream ----------

  /** One thread's state after a shared stream: events of other threads are refused. */
  function FoldedFor(thread: string, es: seq<ConversationEvent>): seq<TranscriptItem> {
    if es == [] then []
    else if Last(es).thread == thread then Applied(FoldedFor(thread, Init(es)), Last(es))
    else FoldedFor(thread, Init(es))
  }

  function EventsOf(thread: string, es: seq<ConversationEvent>): seq<ConversationEvent> {
    if es == [] then []
    else if Last(es).thread == thread then EventsOf(thread, Init(es)) + [Last(es)]
    else EventsOf(thread, Init(es))
  }

  /** However threads interleave, each state holds what its own events alone would have given, ids unique per kind. */
  lemma {:induction false} ThreadsDoNotInterfere(thread: string, es: seq<ConversationEvent>)
    ensures FoldedFor(thread, es) == Folded(EventsOf(thread, es))
    ensures forall i, j :: 0 <= i < j < |FoldedFor(thread, es)| && ItemKey(FoldedFor(thread, es)[i]).Some? ==>
      ItemKey(FoldedFor(thread, es)[i]) != ItemKey(FoldedFor(thread, es)[j])
  {
    if es != [] {
      ThreadsDoNotInterfere(thread, Init(es));
      if Last(es).thread == thread {
        InitOfAppend(EventsOf(thread, Init(es)), Last(es));
      }
    }
    FoldedKeys(EventsOf(thread, es));
  }

  /** A whole stream through one reducer object. */
  method ApplyAll(state: ConversationState, es: seq<ConversationEvent>) returns (accepted: seq<bool>)
    requires state.items == []
    modifies state
    ensures state.items == FoldedFor(state.threadId, es)
    ensures |accepted| == |es| && forall k :: 0 <= k < |es| ==> (accepted[k] <==> es[k].thread == state.threadId)
  {
    accepted := [];
    for k := 0 to |es|
      invariant state.items == FoldedFor(state.threadId, es[..k])
      invariant |accepted| == k && forall j :: 0 <= j < k ==> (accepted[j] <==> es[j].thread == state.threadId)
    {
      assert Init(es[..k + 1]) == es[..k] && Last(es[..k + 1]) == es[k];
      var ok := state.Apply(es[k]);
      accepted := accepted + [ok];
    }
    assert es[..|es|] == es;
  }

  // ---------- Terminal events ----------

  /** The titles announced for a terminal, in order. */
  function Created(es: seq<ConversationEvent>, id: string): seq<string> {
    if es == [] then []
    else if Last(es).TerminalCreated? && Last(es).terminalId == id then Created(Init(es), id) + [Last(es).name]
    else Created(Init(es), id)
  }

  function Printed(es: seq<ConversationEvent>, id: string): seq<string> {
    if es == [] then []
    else if Last(es).TerminalOutput? && Last(es).terminalId == id then Printed(Init(es), id) + [Last(es).text]
    else Printed(Init(es), id)
  }

  function Exited(es: seq<ConversationEvent>, id: string): seq<int> {
    if es == [] then []
    else if Last(es).TerminalExited? && Last(es).terminalId == id then Exited(Init(es), id) + [Last(es).exitCode]
    else Exited(Init(es), id)
  }

  function Join(texts: seq<string>): string {
    if texts == [] then "" else Join(Init(texts)) + Last(texts)
  }

  function LastOf<T>(s: seq<T>): Option<T> {
    if s == [] then None else Some(Last(s))
  }

  lemma {:induction false} TerminalEventSplit(es: seq<ConversationEvent>, id: string)
    requires es != [] && EventKey(Last(es)) == Some(Key(TerminalItem, id))
    ensures var u := EventUpdate(Last(es));
      && LastOf(Created(es, id)) == Or(u.title, LastOf(Created(Init(es), id)))
      && Join(Printed(es, id)) == Join(Printed(Init(es), id)) + GetOr(u.output, "")
      && LastOf(Exited(es, id)) == Or(u.exitCode, LastOf(Exited(Init(es), id)))
  {
    if Last(es).TerminalOutput? {
      InitOfAppend(Printed(Init(es), id), Last(es).text);
    }
  }

  lemma {:induction false} OtherEventSplit(es: seq<ConversationEvent>, id: string)
    requires es != [] && EventKey(Last(es)) != Some(Key(TerminalItem, id))
    ensures Created(es, id) == Created(Init(es), id)
    ensures Printed(es, id) == Printed(Init(es), id)
    ensures Exited(es, id) == Exited(Init(es), id)
  {
  }

  lemma {:induction false} TerminalFieldsSplit(es: seq<ConversationEvent>, id: string)
    ensures var us := UpdatesFor(es, Key(TerminalItem, id));
      && LastGiven(us, TitleOf) == LastOf(Created(es, id))
      && Texts(us) == Join(Printed(es, id))
      && LastGiven(us, ExitCodeOf) == LastOf(Exited(es, id))
  {
    if es != [] {
      TerminalFieldsSplit(Init(es), id);
      if EventKey(Last(es)) == Some(Key(TerminalItem, id)) {
        TerminalFieldsAppend(UpdatesFor(Init(es), Key(TerminalItem, id)), EventUpdate(Last(es)));
        NextUpdate(es, Key(TerminalItem, id));
        TerminalEventSplit(es, id);
      } else {
        OtherEventSplit(es, id);
      }
    }
  }

  lemma {:induction false} TerminalSummary(es: seq<ConversationEvent>, id: string)
    requires UpdatesFor(es, Key(TerminalItem, id)) != []
    ensures Summary(Key(TerminalItem, id), UpdatesFor(es, Key(TerminalItem, id))) ==
      Terminal(id, GetOr(LastOf(Created(es, id)), "Terminal"), Join(Printed(es, id)), LastOf(Exited(es, id)))
  {
    TerminalFieldsSplit(es, id);
  }

  // ---------- Each kind of item, read off its events ----------

  /** The event is about the item of this kind and id. */
  predicate IsAbout(e: ConversationEvent, kind: ItemKind, id: string) {
    match e
    case UserMessage(_, messageId, _) => kind.UserItem? && messageId == id
    case AssistantChunk(_, messageId, _, _) => kind.AssistantItem? && messageId == id
    case ThoughtChunk(_, messageId, _, _) => kind.ThoughtItem? && messageId == id
    case ToolCall(_, toolCallId, _, _, _, _, _) => kind.ToolItem? && toolCallId == id
    case TerminalCreated(_, terminalId, _) => kind.TerminalItem? && terminalId == id
    case TerminalOutput(_, terminalId, _) => kind.TerminalItem? && terminalId == id
    case TerminalExited(_, terminalId, _) => kind.TerminalItem? && terminalId == id
    case NoticeShown(_, _) => false
  }

  predicate HasId(item: TranscriptItem, kind: ItemKind, id: string) {
    match item
    case User(messageId, _) => kind.UserItem? && messageId == id
    case Assistant(messageId, _, _) => kind.AssistantItem? && messageId == id
    case Thought(messageId, _, _) => kind.ThoughtItem? && messageId == id
    case Tool(toolCallId, _, _, _, _, _) => kind.ToolItem? && toolCallId == id
    case Terminal(terminalId, _, _, _) => kind.TerminalItem? && terminalId == id
    case Notice(_) => false
  }

  lemma {:induction false} AboutIsKey(e: ConversationEvent, kind: ItemKind, id: string)
    ensures IsAbout(e, kind, id) <==> EventKey(e) == Some(Key(kind, id))
  {
  }

  lemma {:induction false} IdIsKey(item: TranscriptItem, kind: ItemKind, id: string)
    ensures HasId(item, kind, id) <==> ItemKey(item) == Some(Key(kind, id))
  {
  }

  ghost predicate Mentioned(es: seq<ConversationEvent>, kind: ItemKind, id: string) {
    exists k :: 0 <= k < |es| && IsAbout(es[k], kind, id)
  }

  lemma {:induction false} MentionedIsSeen(es: seq<ConversationEvent>, kind: ItemKind, id: string)
    ensures Mentioned(es, kind, id) <==> Seen(es, Key(kind, id))
  {
    if es != [] {
      MentionedIsSeen(Init(es), kind, id);
      AboutIsKey(Last(es), kind, id);
      MentionedStep(es, kind, id);
    }
  }

  lemma {:induction false} MentionedStep(es: seq<ConversationEvent>, kind: ItemKind, id: string)
    requires es != []
    ensures Mentioned(es, kind, id) <==> Mentioned(Init(es), kind, id) || IsAbout(Last(es), kind, id)
  {
    assert forall k :: 0 <= k < |es| - 1 ==> Init(es)[k] == es[k];
  }

  ghost predicate IsOnlyItem(items: seq<TranscriptItem>, j: nat, kind: ItemKind, id: string) {
    j < |items| && forall k :: 0 <= k < |items| ==> (HasId(items[k], kind, id) <==> k == j)
  }

  /** There is exactly one item for each kind and id that an event is about, and none for any other. */
  lemma {:induction false} ItemsAreMentioned(es: seq<ConversationEvent>, kind: ItemKind, id: string)
    ensures Mentioned(es, kind, id) ==> exists j :: IsOnlyItem(Folded(es), j, kind, id)
    ensures !Mentioned(es, kind, id) ==> forall k :: 0 <= k < |Folded(es)| ==> !HasId(Folded(es)[k], kind, id)
  {
    MentionedIsSeen(es, kind, id);
    forall k | 0 <= k < |Folded(es)|
      ensures HasId(Folded(es)[k], kind, id) <==> ItemKey(Folded(es)[k]) == Some(Key(kind, id))
    {
      IdIsKey(Folded(es)[k], kind, id);
    }
    if Mentioned(es, kind, id) {
      var j := ItemOfKey(es, Key(kind, id));
      SeenMeansUpdates(es, Key(kind, id));
      SummaryKey(Key(kind, id), UpdatesFor(es, Key(kind, id)));
      assert IsOnlyItem(Folded(es), j, kind, id);
    } else {
      UnseenKeyHasNoItem(es, Key(kind, id));
    }
  }

  /** What the events give for one field, in order; `pick` says what one event gives. */
  function Given<T>(es: seq<ConversationEvent>, pick: ConversationEvent -> Option<T>): seq<T> {
    if es == [] then []
    else
      match pick(Last(es))
      case Some(x) => Given(Init(es), pick) + [x]
      case None => Given(Init(es), pick)
  }

  function LastGivenBy<T>(es: seq<ConversationEvent>, pick: ConversationEvent -> Option<T>): Option<T> {
    LastOf(Given(es, pick))
  }

  ghost predicate PicksField<T>(e: ConversationEvent, key: Key, pick: ConversationEvent -> Option<T>,
      field: Update -> Option<T>)
  {
    pick(e) == if EventKey(e) == Some(key) then field(EventUpdate(e)) else None
  }

  ghost predicate PicksText(e: ConversationEvent, key: Key, pick: ConversationEvent -> Option<string>) {
    pick(e) == if EventKey(e) == Some(key) then Some(TextOf(EventUpdate(e))) else None
  }

  /** Reading a field off the updates of a key and off the events gives the same. */
  lemma {:induction false} FieldIsGiven<T>(es: seq<ConversationEvent>, key: Key, pick: ConversationEvent -> Option<T>,
      field: Update -> Option<T>)
    requires forall e :: PicksField(e, key, pick, field)
    ensures LastGiven(UpdatesFor(es, key), field) == LastGivenBy(es, pick)
  {
    if es != [] {
      FieldIsGiven(Init(es), key, pick, field);
      assert PicksField(Last(es), key, pick, field);
      if EventKey(Last(es)) == Some(key) {
        NextUpdate(es, key);
        LastGivenAppend(UpdatesFor(Init(es), key), EventUpdate(Last(es)), field);
      }
    }
  }

  lemma {:induction false} JoinAppend(texts: seq<string>, text: string)
    ensures Join(texts + [text]) == Join(texts) + text
  {
    InitOfAppend(texts, text);
  }

  lemma {:induction false} TextsAreGiven(es: seq<ConversationEvent>, key: Key,
      pick: ConversationEvent -> Option<string>)
    requires forall e :: PicksText(e, key, pick)
    ensures Texts(UpdatesFor(es, key)) == Join(Given(es, pick))
  {
    if es != [] {
      TextsAreGiven(Init(es), key, pick);
      assert PicksText(Last(es), key, pick);
      if EventKey(Last(es)) == Some(key) {
        NextUpdate(es, key);
        TextsAppend(UpdatesFor(Init(es), key), EventUpdate(Last(es)));
        JoinAppend(Given(Init(es), pick), TextOf(EventUpdate(Last(es))));
      }
    }
  }

  // What an event gives for each field of one item.

  function UserText(id: string): ConversationEvent -> Option<string> {
    (e: ConversationEvent) => if e.UserMessage? && e.messageId == id then Some(e.text) else None
  }

  function AssistantText(id: string): ConversationEvent -> Option<string> {
    (e: ConversationEvent) => if e.AssistantChunk? && e.messageId == id then Some(e.text) else None
  }

  function AssistantDone(id: string): ConversationEvent -> Option<bool> {
    (e: ConversationEvent) => if e.AssistantChunk? && e.messageId == id then Some(e.completed) else None
  }

  function ThoughtText(id: string): ConversationEvent -> Option<string> {
    (e: ConversationEvent) => if e.ThoughtChunk? && e.messageId == id then Some(e.text) else None
  }

  function ThoughtDone(id: string): ConversationEvent -> Option<bool> {
    (e: ConversationEvent) => if e.ThoughtChunk? && e.messageId == id then Some(e.completed) else None
  }

  function ToolTitle(id: string): ConversationEvent -> Option<string> {
    (e: ConversationEvent) => if e.ToolCall? && e.toolCallId == id then e.title else None
  }

  function ToolStatus(id: string): ConversationEvent -> Option<string> {
    (e: ConversationEvent) => if e.ToolCall? && e.toolCallId == id then e.status else None
  }

  function ToolDetail(id: string): ConversationEvent -> Option<string> {
    (e: ConversationEvent) => if e.ToolCall? && e.toolCallId == id then e.detail else None
  }

  function ToolInput(id: string): ConversationEvent -> Option<string> {
    (e: ConversationEvent) => if e.ToolCall? && e.toolCallId == id then e.rawInput else None
  }

  function ToolOutput(id: string): ConversationEvent -> Option<string> {
    (e: ConversationEvent) => if e.ToolCall? && e.toolCallId == id then e.rawOutput else None
  }

  function DoneOf(u: Update): Option<bool> {
    if u.MoreText? then Some(u.completed) else None
  }

  function WholeTextOf(u: Update): Option<string> {
    if u.SetText? then Some(u.text) else None
  }

  lemma {:induction false} ToolFieldsAreGiven(es: seq<ConversationEvent>, id: string)
    ensures var us := UpdatesFor(es, Key(ToolItem, id));
      && LastGiven(us, TitleOf) == LastGivenBy(es, ToolTitle(id))
      && LastGiven(us, StatusOf) == LastGivenBy(es, ToolStatus(id))
      && LastGiven(us, DetailOf) == LastGivenBy(es, ToolDetail(id))
      && LastGiven(us, InputOf) == LastGivenBy(es, ToolInput(id))
      && LastGiven(us, ResultOf) == LastGivenBy(es, ToolOutput(id))
  {
    var key := Key(ToolItem, id);
    FieldIsGiven(es, key, ToolTitle(id), TitleOf);
    FieldIsGiven(es, key, ToolStatus(id), StatusOf);
    FieldIsGiven(es, key, ToolDetail(id), DetailOf);
    FieldIsGiven(es, key, ToolInput(id), InputOf);
    FieldIsGiven(es, key, ToolOutput(id), ResultOf);
  }

  /** A tool call's item: of each field the last value that any of its events supplied. */
  lemma {:induction false} ToolItemOfEvents(es: seq<ConversationEvent>, id: string) returns (j: nat)
    requires Mentioned(es, ToolItem, id)
    ensures IsOnlyItem(Folded(es), j, ToolItem, id)
    ensures Folded(es)[j] ==
      Tool(id, GetOr(LastGivenBy(es, ToolTitle(id)), ""), LastGivenBy(es, ToolStatus(id)),
           LastGivenBy(es, ToolDetail(id)), LastGivenBy(es, ToolInput(id)), LastGivenBy(es, ToolOutput(id)))
  {
    j := OnlyItem(es, ToolItem, id);
    ToolFieldsAreGiven(es, id);
  }

  lemma {:induction false} OnlyItem(es: seq<ConversationEvent>, kind: ItemKind, id: string) returns (j: nat)
    requires Mentioned(es, kind, id)
    ensures UpdatesFor(es, Key(kind, id)) != [] && IsOnlyItem(Folded(es), j, kind, id)
    ensures Folded(es)[j] == Summary(Key(kind, id), UpdatesFor(es, Key(kind, id)))
  {
    MentionedIsSeen(es, kind, id);
    ItemsAreMentioned(es, kind, id);
    var key := Key(kind, id);
    j := ItemOfKey(es, key);
    SummaryKey(key, UpdatesFor(es, key));
    IdIsKey(Folded(es)[j], kind, id);
  }

  lemma {:induction false} UserTextIsGiven(es: seq<ConversationEvent>, id: string)
    requires UpdatesFor(es, Key(UserItem, id)) != []
    ensures Some(Last(UpdatesFor(es, Key(UserItem, id))).text) == LastGivenBy(es, UserText(id))
  {
    FieldIsGiven(es, Key(UserItem, id), UserText(id), WholeTextOf);
  }

  /** A user item: the last text sent under its id. */
  lemma {:induction false} UserItemOfEvents(es: seq<ConversationEvent>, id: string) returns (j: nat)
    requires Mentioned(es, UserItem, id)
    ensures IsOnlyItem(Folded(es), j, UserItem, id)
    ensures Folded(es)[j] == User(id, GetOr(LastGivenBy(es, UserText(id)), ""))
  {
    j := OnlyItem(es, UserItem, id);
    UserTextIsGiven(es, id);
  }

  lemma {:induction false} AssistantStreamIsGiven(es: seq<ConversationEvent>, id: string)
    requires UpdatesFor(es, Key(AssistantItem, id)) != []
    ensures var us := UpdatesFor(es, Key(AssistantItem, id));
      && Texts(us) == Join(Given(es, AssistantText(id)))
      && Some(Last(us).completed) == LastGivenBy(es, AssistantDone(id))
  {
    TextsAreGiven(es, Key(AssistantItem, id), AssistantText(id));
    FieldIsGiven(es, Key(AssistantItem, id), AssistantDone(id), DoneOf);
  }

  lemma {:induction false} ThoughtStreamIsGiven(es: seq<ConversationEvent>, id: string)
    requires UpdatesFor(es, Key(ThoughtItem, id)) != []
    ensures var us := UpdatesFor(es, Key(ThoughtItem, id));
      && Texts(us) == Join(Given(es, ThoughtText(id)))
      && Some(Last(us).completed) == LastGivenBy(es, ThoughtDone(id))
  {
    TextsAreGiven(es, Key(ThoughtItem, id), ThoughtText(id));
    FieldIsGiven(es, Key(ThoughtItem, id), ThoughtDone(id), DoneOf);
  }

  /** A streamed item: all its chunks joined; it is streaming unless its last chunk was a completing one. */
  lemma {:induction false} AssistantItemOfEvents(es: seq<ConversationEvent>, id: string) returns (j: nat)
    requires Mentioned(es, AssistantItem, id)
    ensures IsOnlyItem(Folded(es), j, AssistantItem, id)
    ensures Folded(es)[j] ==
      Assistant(id, Join(Given(es, AssistantText(id))), LastGivenBy(es, AssistantDone(id)) != Some(true))
  {
    j := OnlyItem(es, AssistantItem, id);
    AssistantStreamIsGiven(es, id);
  }

  lemma {:induction false} ThoughtItemOfEvents(es: seq<ConversationEvent>, id: string) returns (j: nat)
    requires Mentioned(es, ThoughtItem, id)
    ensures IsOnlyItem(Folded(es), j, ThoughtItem, id)
    ensures Folded(es)[j] ==
      Thought(id, Join(Given(es, ThoughtText(id))), LastGivenBy(es, ThoughtDone(id)) != Some(true))
  {
    j := OnlyItem(es, ThoughtItem, id);
    ThoughtStreamIsGiven(es, id);
  }

  /**
    A terminal's item depends only on the order within its created, output and exit events: the last
    title announced (or a default), all output joined, the last exit code. Output may come first.
   */
  lemma {:induction false} TerminalItemIsOrderFree(es: seq<ConversationEvent>, id: string) returns (j: nat)
    requires Mentioned(es, TerminalItem, id)
    ensures IsOnlyItem(Folded(es), j, TerminalItem, id)
    ensures Folded(es)[j] ==
      Terminal(id, GetOr(LastOf(Created(es, id)), "Terminal"), Join(Printed(es, id)), LastOf(Exited(es, id)))
  {
    j := OnlyItem(es, TerminalItem, id);
    TerminalSummary(es, id);
  }

  function Notices(items: seq<TranscriptItem>): seq<string> {
    if items == [] then []
    else if Last(items).Notice? then Notices(Init(items)) + [Last(items).text]
    else Notices(Init(items))
  }

  function NoticeText(e: ConversationEvent): Option<string> {
    if e.NoticeShown? then Some(e.text) else None
  }

  lemma {:induction false} NoticesAfterUpdate(items: seq<TranscriptItem>, i: nat, item: TranscriptItem)
    requires i < |items| && !items[i].Notice? && !item.Notice?
    ensures Notices(items[i := item]) == Notices(items)
  {
    if i < |items| - 1 {
      NoticesAfterUpdate(Init(items), i, item);
      assert Init(items[i := item]) == Init(items)[i := item];
    } else {
      assert Init(items[i := item]) == Init(items);
    }
  }

  lemma {:induction false} NoticesAfterEvent(items: seq<TranscriptItem>, e: ConversationEvent)
    ensures Notices(Applied(items, e)) == Notices(items) + if e.NoticeShown? then [e.text] else []
  {
    match EventKey(e)
    case None => InitOfAppend(items, Notice(e.text));
    case Some(key) =>
      var i := Find(items, key, 0);
      if i < |items| {
        NoticesAfterUpdate(items, i, Merged(items[i], EventUpdate(e)));
      } else {
        InitOfAppend(items, Fresh(key, EventUpdate(e)));
      }
  }

  /** Every notice is an item of its own, in order, equal texts included. */
  lemma {:induction false} NoticesAreKept(es: seq<ConversationEvent>)
    ensures Notices(Folded(es)) == Given(es, NoticeText)
  {
    if es != [] {
      NoticesAreKept(Init(es));
      NoticesAfterEvent(Folded(Init(es)), Last(es));
    }
  }
}
