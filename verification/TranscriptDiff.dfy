/** Row keys of a transcript, and why an append-only history is followed by append-only diffs. */
module TranscriptDiff {
  import opened Wrappers
  import opened Sequences
  import opened RowOps
  import opened UniqueDiff
  import opened Dirty
  import L = TranscriptLines
  import C = Conversation
  import Grouping
  import Rebuild

  function KindTag(kind: C.ItemKind): string {
    match kind
    case UserItem => "user:"
    case AssistantItem => "assistant:"
    case ThoughtItem => "thought:"
    case ToolItem => "tool:"
    case TerminalItem => "terminal:"
  }

  function RowKey(key: C.Key): string {
    KindTag(key.kind) + key.id
  }

  /** The keys of the rows shown: one per item, notices omitted. */
  function RowKeys(items: seq<C.TranscriptItem>): seq<string> {
    if items == [] then []
    else
      match C.ItemKey(Last(items))
      case Some(key) => RowKeys(Init(items)) + [RowKey(key)]
      case None => RowKeys(Init(items))
  }

  /** Row keys tell kinds and ids apart, whatever characters an id holds. */
  lemma {:induction false} RowKeyInjective(a: C.Key, b: C.Key)
    requires RowKey(a) == RowKey(b)
    ensures a == b
  {
    var x, y := KindTag(a.kind), KindTag(b.kind);
    assert RowKey(a)[0] == x[0] && RowKey(b)[0] == y[0];
    assert RowKey(a)[1] == x[1] && RowKey(b)[1] == y[1];
    assert a.kind == b.kind;
    assert RowKey(a)[|x|..] == a.id && RowKey(b)[|x|..] == b.id;
  }

  lemma {:induction false} RowKeysOfExtension(before: seq<C.TranscriptItem>, after: seq<C.TranscriptItem>)
    requires |before| <= |after| && forall j :: 0 <= j < |before| ==> C.ItemKey(after[j]) == C.ItemKey(before[j])
    ensures RowKeys(before) <= RowKeys(after)
    ensures |RowKeys(after)| <= |RowKeys(before)| + |after| - |before|
    decreases |after|
  {
    if |before| < |after| {
      RowKeysOfExtension(before, Init(after));
    } else if before != [] {
      RowKeysOfExtension(Init(before), Init(after));
    }
  }

  /** The row key of an item, written out; a notice has none. */
  ghost predicate HasRowKey(item: C.TranscriptItem, rowKey: string) {
    match item
    case User(id, _) => rowKey == "user:" + id
    case Assistant(id, _, _) => rowKey == "assistant:" + id
    case Thought(id, _, _) => rowKey == "thought:" + id
    case Tool(id, _, _, _, _, _) => rowKey == "tool:" + id
    case Terminal(id, _, _, _) => rowKey == "terminal:" + id
    case Notice(_) => false
  }

  /** How many of the first `n` items are rows: all but the notices. */
  function RowsAmong(items: seq<C.TranscriptItem>, n: nat): nat
    requires n <= |items|
  {
    if n == 0 then 0 else RowsAmong(items, n - 1) + if items[n - 1].Notice? then 0 else 1
  }

  lemma {:induction false} RowsOfPrefix(items: seq<C.TranscriptItem>, n: nat)
    requires n < |items|
    ensures RowsAmong(Init(items), n) == RowsAmong(items, n)
  {
    if n > 0 {
      RowsOfPrefix(items, n - 1);
    }
  }

  /** Every item that is not a notice has its row key in the list, at its place among the others; no other key is. */
  lemma {:induction false} EveryItemHasItsRow(items: seq<C.TranscriptItem>)
    ensures |RowKeys(items)| == RowsAmong(items, |items|)
    ensures forall j :: 0 <= j < |items| && !items[j].Notice? ==> HasItsRow(items, j)
  {
    if items != [] {
      EveryItemHasItsRow(Init(items));
      RowsOfPrefix(items, |items| - 1);
      forall j | 0 <= j < |items| && !items[j].Notice? ensures HasItsRow(items, j) {
        if j < |items| - 1 {
          assert Init(items)[j] == items[j];
          RowStays(items, j);
        } else {
          RowAdded(items);
        }
      }
    }
  }

  ghost predicate HasItsRow(items: seq<C.TranscriptItem>, j: nat)
    requires j < |items|
  {
    RowsAmong(items, j) < |RowKeys(items)| && HasRowKey(items[j], RowKeys(items)[RowsAmong(items, j)])
  }

  lemma {:induction false} RowStays(items: seq<C.TranscriptItem>, j: nat)
    requires j < |items| - 1 && HasItsRow(Init(items), j)
    ensures HasItsRow(items, j)
  {
    RowsOfPrefix(items, j);
  }

  lemma {:induction false} RowAdded(items: seq<C.TranscriptItem>)
    requires items != [] && !Last(items).Notice? && |RowKeys(Init(items))| == RowsAmong(items, |items| - 1)
    ensures HasItsRow(items, |items| - 1)
  {
  }

  lemma {:induction false} RowKeyHasItem(items: seq<C.TranscriptItem>, p: nat) returns (j: nat)
    requires p < |RowKeys(items)|
    ensures j < |items| && C.ItemKey(items[j]).Some? && RowKey(C.ItemKey(items[j]).value) == RowKeys(items)[p]
  {
    if p < |RowKeys(Init(items))| {
      j := RowKeyHasItem(Init(items), p);
    } else {
      j := |items| - 1;
    }
  }

  lemma {:induction false} RowKeysUnique(items: seq<C.TranscriptItem>)
    requires forall i, j :: 0 <= i < j < |items| && C.ItemKey(items[i]).Some? ==>
      C.ItemKey(items[i]) != C.ItemKey(items[j])
    ensures Unique(RowKeys(items))
  {
    if items != [] {
      RowKeysUnique(Init(items));
      var ks := RowKeys(Init(items));
      if C.ItemKey(Last(items)).Some? {
        var key := C.ItemKey(Last(items)).value;
        forall p | 0 <= p < |ks| ensures ks[p] != RowKey(key) {
          var j := RowKeyHasItem(Init(items), p);
          assert C.ItemKey(items[j]) != C.ItemKey(items[|items| - 1]);
          if ks[p] == RowKey(key) {
            RowKeyInjective(C.ItemKey(Init(items)[j]).value, key);
          }
        }
      }
    }
  }

  /** The row keys of any rebuilt transcript are duplicate-free, so its diffs take the unique-key path. */
  lemma {:induction false} TranscriptKeysUnique(thread: string, h: seq<L.ChatMessage>)
    ensures Unique(RowKeys(Rebuild.Rebuilt(thread, h)))
  {
    Grouping.FoldedKeys(Rebuild.Events(thread, h));
    RowKeysUnique(Rebuild.Rebuilt(thread, h));
  }

  /**
    When messages are appended to a history, the row keys shown before are a prefix of those shown
    after, and the diff consists of inserts at the end only, at most one a message.
   */
  lemma {:induction false} GrownHistoryAppendsRows<T>(thread: string, h: seq<L.ChatMessage>, more: seq<L.ChatMessage>,
      rows: seq<T>)
    requires |rows| == |RowKeys(Rebuild.Rebuilt(thread, h + more))|
    ensures var oldKeys, newKeys := RowKeys(Rebuild.Rebuilt(thread, h)), RowKeys(Rebuild.Rebuilt(thread, h + more));
      && oldKeys <= newKeys && Unique(oldKeys) && Unique(newKeys)
      && UniqueScript(oldKeys, newKeys, rows) == Appends(rows, |oldKeys|)
      && |newKeys| - |oldKeys| <= |more|
  {
    var before, after := Rebuild.Rebuilt(thread, h), Rebuild.Rebuilt(thread, h + more);
    Rebuild.RebuiltExtends(thread, h, more);
    RowKeysOfExtension(before, after);
    TranscriptKeysUnique(thread, h + more);
    GrowthIsAppends(RowKeys(before), RowKeys(after), rows);
  }

  /** The same, for the conversation objects and the diff as they are actually computed. */
  method DiffAfterAppend<T>(thread: string, h: seq<L.ChatMessage>, more: seq<L.ChatMessage>, rows: seq<T>)
    returns (ops: seq<RowOp<T>>)
    requires |rows| == |RowKeys(Rebuild.Rebuilt(thread, h + more))|
    ensures |ops| <= |more| && |ops| <= |rows| && |rows| - |ops| == |RowKeys(Rebuild.Rebuilt(thread, h))|
    ensures ops == Appends(rows, |rows| - |ops|)
  {
    var before := Rebuild.RebuildFromChatMessages(thread, h);
    var oldKeys := RowKeys(before.items);
    var after := Rebuild.RebuildFromChatMessages(thread, h + more);
    var newKeys := RowKeys(after.items);
    ops := DiffById(oldKeys, newKeys, rows);
    GrownHistoryAppendsRows(thread, h, more, rows);
  }
}
