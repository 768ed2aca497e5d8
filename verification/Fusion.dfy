/**
 Reciprocal-rank fusion (apps/agent/retrieval/fusion.go), with scores over the reals.
 */
module Fusion {

  const DEFAULT_K := 60

  /** The ordered result list of one retriever. */
  datatype RankedIDs = RankedIDs(source: string, ids: seq<int>)

  datatype Entry = Entry(score: real, sources: set<string>, bestRank: nat)

  datatype FusedID = FusedID(id: int, entry: Entry)

  function Smoothing(k: int): nat { if k <= 0 then DEFAULT_K else k }

  // ----- what fusion computes -----

  /** The position of the first occurrence, counted from 1; 0 when there is none. */
  function FirstRank(ids: seq<int>, id: int): (rank: nat)
    ensures rank <= |ids| && (rank > 0 <==> id in ids)
    ensures rank > 0 ==> ids[rank - 1] == id && id !in ids[..rank - 1]
  {
    if ids == [] then 0
    else
      var n := |ids| - 1;
      assert ids == ids[..n] + [ids[n]];
      var r := FirstRank(ids[..n], id);
      if r > 0 then assert ids[..r - 1] == ids[..n][..r - 1]; r
      else if ids[n] == id then n + 1 else 0
  }

  function Reciprocal(k: nat, rank: nat): real
    requires k + rank > 0
  {
    1.0 / ((k + rank) as real)
  }

  predicate Listed(lists: seq<RankedIDs>, id: int) {
    exists l :: l in lists && id in l.ids
  }

  function Share(l: RankedIDs, id: int, k: nat): real {
    if id in l.ids then Reciprocal(k, FirstRank(l.ids, id)) else 0.0
  }

  /** The sum of 1 / (k + first rank) over the lists that contain the ID. */
  function Score(lists: seq<RankedIDs>, id: int, k: nat): real {
    if lists == [] then 0.0
    else Score(lists[..|lists| - 1], id, k) + Share(lists[|lists| - 1], id, k)
  }

  function Sources(lists: seq<RankedIDs>, id: int): set<string> {
    set l | l in lists && id in l.ids :: l.source
  }

  /** The best first rank in any list; 0 when no list contains the ID. */
  function BestRank(lists: seq<RankedIDs>, id: int): nat {
    if lists == [] then 0
    else
      var before := BestRank(lists[..|lists| - 1], id);
      var rank := FirstRank(lists[|lists| - 1].ids, id);
      if rank > 0 && (before == 0 || rank < before) then rank else before
  }

  function EntryOf(lists: seq<RankedIDs>, id: int, k: nat): Entry {
    Entry(Score(lists, id, k), Sources(lists, id), BestRank(lists, id))
  }

  /** Higher score first, then better best rank, then smaller ID. */
  predicate Before(a: FusedID, b: FusedID) {
    if a.entry.score != b.entry.score then a.entry.score > b.entry.score
    else if a.entry.bestRank != b.entry.bestRank then a.entry.bestRank < b.entry.bestRank
    else a.id < b.id
  }

  predicate Ordered(items: seq<FusedID>) {
    forall i, j :: 0 <= i < j < |items| ==> Before(items[i], items[j])
  }

  /** The fusion of the lists: each listed ID with its entry, in order. */
  ghost predicate IsFusion(lists: seq<RankedIDs>, k: nat, items: seq<FusedID>) {
    && Ordered(items)
    && (forall it :: it in items ==> Listed(lists, it.id) && it.entry == EntryOf(lists, it.id, k))
    && (forall id :: Listed(lists, id) ==> FusedID(id, EntryOf(lists, id, k)) in items)
  }

  // ----- the implementation -----

  type Entries = map<int, Entry>

  type Rank = r: int | r > 0 witness 1

  function Bump(e: Entry, source: string, rank: Rank, k: nat): Entry {
    Entry(e.score + Reciprocal(k, rank), e.sources + {source},
          if e.bestRank == 0 || rank < e.bestRank then rank else e.bestRank)
  }

  const NEW := Entry(0.0, {}, 0)

  function EntryIn(entries: Entries, id: int): Entry { if id in entries then entries[id] else NEW }

  /** What the entry of an ID is after a list. */
  function Counted(entries: Entries, l: RankedIDs, id: int, k: nat): Entry {
    if id in l.ids then Bump(EntryIn(entries, id), l.source, FirstRank(l.ids, id), k) else EntryIn(entries, id)
  }

  function UpTo(l: RankedIDs, n: nat): RankedIDs
    requires n <= |l.ids|
  {
    RankedIDs(l.source, l.ids[..n])
  }

  /** `r` is right about one ID after a list was added to `entries`. */
  predicate CountedAt(entries: Entries, r: Entries, l: RankedIDs, id: int, k: nat) {
    && (id in r <==> id in entries || id in l.ids)
    && (id in r ==> r[id] == Counted(entries, l, id, k))
  }

  /** The entries after the next ID of a list, which counts only if it is new in this list. */
  function CountNext(r: Entries, l: RankedIDs, index: nat, k: nat): Entries
    requires index < |l.ids|
  {
    var id := l.ids[index];
    if id in l.ids[..index] then r else r[id := Bump(EntryIn(r, id), l.source, index + 1, k)]
  }

  lemma CountNextKeeps(entries: Entries, r: Entries, l: RankedIDs, index: nat, k: nat, id: int)
    requires index < |l.ids| && CountedAt(entries, r, UpTo(l, index), id, k)
    ensures CountedAt(entries, CountNext(r, l, index, k), UpTo(l, index + 1), id, k)
  {
    assert l.ids[..index + 1][..index] == l.ids[..index];
    assert id in l.ids[..index + 1] <==> id in l.ids[..index] || id == l.ids[index];
  }

  ghost predicate CountedAll(entries: Entries, r: Entries, l: RankedIDs, k: nat) {
    forall id :: CountedAt(entries, r, l, id, k)
  }

  lemma CountNextKeepsAll(entries: Entries, r: Entries, l: RankedIDs, index: nat, k: nat)
    requires index < |l.ids| && CountedAll(entries, r, UpTo(l, index), k)
    ensures CountedAll(entries, CountNext(r, l, index, k), UpTo(l, index + 1), k)
  {
    var r', l' := CountNext(r, l, index, k), UpTo(l, index + 1);
    forall id
      ensures CountedAt(entries, r', l', id, k)
    {
      CountNextKeeps(entries, r, l, index, k, id);
    }
  }

  /** One list: every ID in it is counted at its first rank. */
  method AddList(entries: Entries, l: RankedIDs, k: nat) returns (r: Entries)
    ensures CountedAll(entries, r, l, k)
  {
    r := entries;
    var seenInList: set<int> := {};
    for index := 0 to |l.ids|
      invariant forall id :: id in seenInList <==> id in l.ids[..index]
      invariant CountedAll(entries, r, UpTo(l, index), k)
    {
      var id := l.ids[index];
      CountNextKeepsAll(entries, r, l, index, k);
      if id in seenInList {
        continue;
      }
      seenInList := seenInList + {id};
      r := r[id := Bump(EntryIn(r, id), l.source, index + 1, k)];
    }
    assert UpTo(l, |l.ids|) == l;
  }

  /** The entries of all IDs in the lists. */
  ghost predicate Collected(lists: seq<RankedIDs>, k: nat, entries: Entries) {
    && (forall id :: id in entries <==> Listed(lists, id))
    && (forall id :: id in entries ==> entries[id] == EntryOf(lists, id, k))
  }

  lemma UnlistedIsNew(lists: seq<RankedIDs>, id: int, k: nat)
    requires !Listed(lists, id)
    ensures EntryOf(lists, id, k) == NEW
  {
    if lists != [] {
      var n := |lists| - 1;
      assert lists[n] in lists;
      assert forall l :: l in lists[..n] ==> l in lists;
      UnlistedIsNew(lists[..n], id, k);
    }
  }

  lemma AddingCollects(lists: seq<RankedIDs>, l: RankedIDs, k: nat, entries: Entries, id: int)
    requires Collected(lists, k, entries)
    ensures Listed(lists + [l], id) <==> id in entries || id in l.ids
    ensures Counted(entries, l, id, k) == EntryOf(lists + [l], id, k)
  {
    assert (lists + [l])[..|lists|] == lists;
    assert l in lists + [l];
    if !Listed(lists, id) {
      UnlistedIsNew(lists, id, k);
    }
    assert Sources(lists + [l], id) == Sources(lists, id) + if id in l.ids then {l.source} else {};
  }

  method Collect(lists: seq<RankedIDs>, k: nat) returns (entries: Entries)
    ensures Collected(lists, k, entries)
  {
    entries := map[];
    for i := 0 to |lists|
      invariant Collected(lists[..i], k, entries)
    {
      assert lists[..i + 1] == lists[..i] + [lists[i]];
      ghost var before := entries;
      entries := AddList(entries, lists[i], k);
      forall id
        ensures id in entries <==> Listed(lists[..i + 1], id)
        ensures id in entries ==> entries[id] == EntryOf(lists[..i + 1], id, k)
      {
        AddingCollects(lists[..i], lists[i], k, before, id);
        assert CountedAt(before, entries, lists[i], id, k);
      }
    }
    assert lists[..|lists|] == lists;
  }

  /** The entries in the order in which an iteration over the map visits them. */
  method Visit(entries: Entries) returns (items: seq<FusedID>)
    ensures forall it :: it in items <==> it.id in entries && it.entry == entries[it.id]
    ensures forall i, j :: 0 <= i < j < |items| ==> items[i].id != items[j].id
  {
    items := [];
    var todo := entries.Keys;
    while todo != {}
      invariant todo <= entries.Keys
      invariant forall it :: it in items <==> it.id in entries.Keys - todo && it.entry == entries[it.id]
      invariant forall i, j :: 0 <= i < j < |items| ==> items[i].id != items[j].id
      decreases |todo|
    {
      assert (forall id :: id !in todo) ==> todo == {};
      var id :| id in todo;
      assert FusedID(id, entries[id]) !in items;
      assert forall it :: it in items ==> it.id != id;
      items := items + [FusedID(id, entries[id])];
      todo := todo - {id};
    }
  }

  // ----- sort.Slice with the comparator -----

  function InsertItem(x: FusedID, items: seq<FusedID>): seq<FusedID> {
    if items == [] || Before(x, items[0]) then [x] + items else [items[0]] + InsertItem(x, items[1..])
  }

  function SortItems(items: seq<FusedID>): seq<FusedID> {
    if items == [] then [] else InsertItem(items[0], SortItems(items[1..]))
  }

  lemma BeforeIsStrictTotalOrder(a: FusedID, b: FusedID, c: FusedID)
    ensures !Before(a, a)
    ensures Before(a, b) && Before(b, c) ==> Before(a, c)
    ensures a.id != b.id ==> Before(a, b) || Before(b, a)
    ensures !(Before(a, b) && Before(b, a))
  {
  }

  lemma {:induction false} InsertItemMembers(x: FusedID, items: seq<FusedID>)
    ensures forall y :: y in InsertItem(x, items) <==> y == x || y in items
  {
    if !(items == [] || Before(x, items[0])) {
      InsertItemMembers(x, items[1..]);
      assert items == [items[0]] + items[1..];
    }
  }

  lemma {:induction false} InsertItemOrders(x: FusedID, items: seq<FusedID>)
    requires Ordered(items) && forall y :: y in items ==> y.id != x.id
    ensures Ordered(InsertItem(x, items))
  {
    if items == [] {
    } else if Before(x, items[0]) {
      assert forall i :: 0 < i < |items| ==> Before(items[0], items[i]);
    } else {
      var tail := InsertItem(x, items[1..]);
      assert forall y :: y in items[1..] ==> y in items;
      InsertItemOrders(x, items[1..]);
      InsertItemMembers(x, items[1..]);
      assert Before(items[0], x) by {
        BeforeIsStrictTotalOrder(x, items[0], x);
        assert items[0] in items;
      }
      forall i | 0 <= i < |tail|
        ensures Before(items[0], tail[i])
      {
        assert tail[i] in tail;
        if tail[i] != x {
          var j :| 0 <= j < |items[1..]| && items[1..][j] == tail[i];
          assert items[j + 1] == tail[i];
        }
      }
    }
  }

  lemma {:induction false} SortItemsSorts(items: seq<FusedID>)
    requires forall i, j :: 0 <= i < j < |items| ==> items[i].id != items[j].id
    ensures Ordered(SortItems(items)) && forall y :: y in SortItems(items) <==> y in items
  {
    if items != [] {
      var tail := items[1..];
      SortItemsSorts(tail);
      assert items == [items[0]] + tail;
      InsertItemOrders(items[0], SortItems(tail));
      InsertItemMembers(items[0], SortItems(tail));
    }
  }

  method FuseRankedIDs(k: int, lists: seq<RankedIDs>) returns (result: seq<FusedID>)
    ensures IsFusion(lists, Smoothing(k), result)
  {
    var entries := Collect(lists, Smoothing(k));
    var ordered := Visit(entries);
    SortItemsSorts(ordered);
    result := SortItems(ordered);
  }

  // ----- the same fusion on messages -----

  datatype Message = Message(msgId: int, content: string)

  datatype FusedMessage = FusedMessage(message: Message, fused: FusedID)

  function IdsOf(messages: seq<Message>): (ids: seq<int>)
    ensures |ids| == |messages| && forall i :: 0 <= i < |messages| ==> ids[i] == messages[i].msgId
  {
    if messages == [] then [] else IdsOf(messages[..|messages| - 1]) + [messages[|messages| - 1].msgId]
  }

  /** The messages that the entries keep: the first one seen with each ID. */
  function Kept(before: map<int, Message>, messages: seq<Message>): map<int, Message> {
    if messages == [] then before
    else
      var m := messages[|messages| - 1];
      var kept := Kept(before, messages[..|messages| - 1]);
      if m.msgId in kept then kept else kept[m.msgId := m]
  }

  method KeepFirst(before: map<int, Message>, messages: seq<Message>) returns (kept: map<int, Message>)
    ensures kept == Kept(before, messages)
  {
    kept := before;
    for i := 0 to |messages|
      invariant kept == Kept(before, messages[..i])
    {
      assert messages[..i + 1][..i] == messages[..i];
      var m := messages[i];
      if m.msgId !in kept {
        kept := kept[m.msgId := m];
      }
    }
    assert messages[..|messages|] == messages;
  }

  /** A kept message is the earlier one, or the first of the new ones with its ID. */
  lemma {:induction false} KeptMeaning(before: map<int, Message>, messages: seq<Message>, id: int)
    ensures id in Kept(before, messages) <==> id in before || id in IdsOf(messages)
    ensures id in before ==> Kept(before, messages)[id] == before[id]
    ensures id !in before && id in IdsOf(messages) ==>
              Kept(before, messages)[id] == messages[FirstRank(IdsOf(messages), id) - 1]
  {
    if messages != [] {
      var n := |messages| - 1;
      KeptMeaning(before, messages[..n], id);
      KeptOneMore(before, messages, id);
      IdsOneMore(messages, id);
      if id in IdsOf(messages[..n]) {
        var r := FirstRank(IdsOf(messages[..n]), id);
        assert messages[..n][r - 1] == messages[r - 1];
      }
    }
  }

  lemma KeptOneMore(before: map<int, Message>, messages: seq<Message>, id: int)
    requires messages != []
    ensures var n := |messages| - 1;
            var old_, new_ := Kept(before, messages[..n]), Kept(before, messages);
            && (id in new_ <==> id in old_ || messages[n].msgId == id)
            && (id in old_ ==> new_[id] == old_[id])
            && (id !in old_ && messages[n].msgId == id ==> new_[id] == messages[n])
  {
  }

  lemma IdsOneMore(messages: seq<Message>, id: int)
    requires messages != []
    ensures var n := |messages| - 1;
            && (id in IdsOf(messages) <==> id in IdsOf(messages[..n]) || messages[n].msgId == id)
            && FirstRank(IdsOf(messages), id)
               == (if id in IdsOf(messages[..n]) then FirstRank(IdsOf(messages[..n]), id)
                   else if messages[n].msgId == id then n + 1 else 0)
  {
    var n := |messages| - 1;
    assert IdsOf(messages)[..n] == IdsOf(messages[..n]);
    assert IdsOf(messages) == IdsOf(messages)[..n] + [messages[n].msgId];
  }

  /** The two lists that FuseMessages fuses. */
  function TwoLists(fulltext: seq<Message>, milvus: seq<Message>): seq<RankedIDs> {
    [RankedIDs("fulltext", IdsOf(fulltext)), RankedIDs("milvus", IdsOf(milvus))]
  }

  function KeptOfBoth(fulltext: seq<Message>, milvus: seq<Message>): map<int, Message> {
    Kept(Kept(map[], fulltext), milvus)
  }

  lemma ListedIsKept(fulltext: seq<Message>, milvus: seq<Message>, id: int)
    requires Listed(TwoLists(fulltext, milvus), id)
    ensures id in KeptOfBoth(fulltext, milvus)
  {
    KeptMeaning(map[], fulltext, id);
    KeptMeaning(Kept(map[], fulltext), milvus, id);
    var l :| l in TwoLists(fulltext, milvus) && id in l.ids;
  }

  function FusedOf(result: seq<FusedMessage>): seq<FusedID> {
    if result == [] then [] else FusedOf(result[..|result| - 1]) + [result[|result| - 1].fused]
  }

  /** The reply: each fused ID with its message. */
  method Attach(sorted: seq<FusedID>, kept: map<int, Message>) returns (result: seq<FusedMessage>)
    requires forall it :: it in sorted ==> it.id in kept
    ensures FusedOf(result) == sorted
    ensures forall m :: m in result ==> m.fused.id in kept && m.message == kept[m.fused.id]
  {
    result := [];
    for i := 0 to |sorted|
      invariant FusedOf(result) == sorted[..i]
      invariant forall m :: m in result ==> m.fused.id in kept && m.message == kept[m.fused.id]
    {
      assert sorted[i] in sorted;
      var m := FusedMessage(kept[sorted[i].id], sorted[i]);
      assert (result + [m])[..|result|] == result;
      result := result + [m];
    }
    assert sorted[..|sorted|] == sorted;
  }

  method FuseMessages(fulltext: seq<Message>, milvus: seq<Message>, k: int) returns (result: seq<FusedMessage>)
    ensures IsFusion(TwoLists(fulltext, milvus), Smoothing(k), FusedOf(result))
    ensures forall m :: m in result ==>
              var kept := KeptOfBoth(fulltext, milvus); m.fused.id in kept && m.message == kept[m.fused.id]
  {
    var lists := TwoLists(fulltext, milvus);
    var entries := Collect(lists, Smoothing(k));
    var kept := KeepFirst(map[], fulltext);
    kept := KeepFirst(kept, milvus);
    var ordered := Visit(entries);
    SortItemsSorts(ordered);
    var sorted := SortItems(ordered);
    forall it | it in sorted
      ensures it.id in kept
    {
      ListedIsKept(fulltext, milvus, it.id);
    }
    result := Attach(sorted, kept);
  }

  // ----- what the order means -----

  lemma HeadIsIn(a: seq<FusedID>)
    ensures a == [] || a[0] in a
  {
  }

  lemma {:induction false} OrderedIsUnique(a: seq<FusedID>, b: seq<FusedID>)
    requires Ordered(a) && Ordered(b) && forall x :: x in a <==> x in b
    ensures a == b
  {
    HeadIsIn(a);
    HeadIsIn(b);
    if a != [] {
      FirstIsFirst(a, b);
      forall x
        ensures x in a[1..] <==> x in b[1..]
      {
        NotAgain(a, x);
        NotAgain(b, x);
      }
      OrderedIsUnique(a[1..], b[1..]);
      assert a == [a[0]] + a[1..] && b == [b[0]] + b[1..];
    }
  }

  lemma NotAgain(a: seq<FusedID>, x: FusedID)
    requires Ordered(a) && a != []
    ensures x in a[1..] <==> x in a && x != a[0]
  {
    assert a == [a[0]] + a[1..];
    if x in a[1..] {
      var j :| 0 <= j < |a[1..]| && a[1..][j] == x;
      assert Before(a[0], a[j + 1]);
    }
  }

  lemma FirstIsFirst(a: seq<FusedID>, b: seq<FusedID>)
    requires Ordered(a) && Ordered(b) && a != [] && forall x :: x in a <==> x in b
    ensures b != [] && a[0] == b[0]
  {
    assert a[0] in b;
    assert b[0] in a;
    var i :| 0 <= i < |b| && b[i] == a[0];
    var j :| 0 <= j < |a| && a[j] == b[0];
  }

  /** The fusion is determined by the lists: the order in which the map is visited has no
      influence, and FuseMessages and FuseRankedIDs agree on two lists. */
  lemma FusionIsUnique(lists: seq<RankedIDs>, k: nat, a: seq<FusedID>, b: seq<FusedID>)
    requires IsFusion(lists, k, a) && IsFusion(lists, k, b)
    ensures a == b
  {
    OrderedIsUnique(a, b);
  }

  lemma ReciprocalDecreases(k: nat, better: nat, worse: nat)
    requires 0 < better < worse
    ensures Reciprocal(k, better) > Reciprocal(k, worse) > 0.0
  {
    var x, y := (k + better) as real, (k + worse) as real;
    assert 0.0 < x < y;
    assert (1.0 / x) * x == 1.0 && (1.0 / y) * y == 1.0;
  }

  /** A positive k is used as it is, and any other stands for 60. */
  lemma SmoothingMeaning(k: int)
    ensures Smoothing(k) == if k > 0 then k else 60
  {
  }

  lemma ReciprocalMeaning(k: nat, rank: nat)
    requires k + rank > 0
    ensures Reciprocal(k, rank) * ((k + rank) as real) == 1.0
  {
  }

  /** The share of a list is 1 / (k + first rank), and nothing without the ID. */
  lemma ShareMeaning(l: RankedIDs, id: int, k: nat)
    ensures id !in l.ids ==> Share(l, id, k) == 0.0
    ensures id in l.ids ==> Share(l, id, k) * ((k + FirstRank(l.ids, id)) as real) == 1.0
  {
    if id in l.ids {
      ReciprocalMeaning(k, FirstRank(l.ids, id));
    }
  }

  /** The best rank is the least of the first ranks in the lists that hold the ID. */
  lemma {:induction false} BestRankMeaning(lists: seq<RankedIDs>, id: int)
    ensures BestRank(lists, id) == 0 <==> !Listed(lists, id)
    ensures forall i :: 0 <= i < |lists| && id in lists[i].ids ==> BestRank(lists, id) <= FirstRank(lists[i].ids, id)
    ensures Listed(lists, id) ==>
              exists i :: 0 <= i < |lists| && id in lists[i].ids && FirstRank(lists[i].ids, id) == BestRank(lists, id)
  {
    if lists != [] {
      var n := |lists| - 1;
      BestRankMeaning(lists[..n], id);
      assert lists == lists[..n] + [lists[n]];
      assert Listed(lists, id) <==> Listed(lists[..n], id) || id in lists[n].ids by {
        assert lists[n] in lists;
      }
      if Listed(lists[..n], id) {
        var i :| 0 <= i < n && id in lists[..n][i].ids && FirstRank(lists[..n][i].ids, id) == BestRank(lists[..n], id);
        assert lists[i] == lists[..n][i];
      }
    }
  }

  /** The order of the result: by falling score, among equal scores by rising best rank, and among
      those by rising ID. */
  lemma OrderMeaning(lists: seq<RankedIDs>, k: nat, items: seq<FusedID>, i: nat, j: nat)
    requires IsFusion(lists, k, items) && i < j < |items|
    ensures var a, b := items[i].id, items[j].id;
            && Score(lists, a, k) >= Score(lists, b, k)
            && (Score(lists, a, k) == Score(lists, b, k) ==> BestRank(lists, a) <= BestRank(lists, b))
            && (Score(lists, a, k) == Score(lists, b, k) && BestRank(lists, a) == BestRank(lists, b) ==> a < b)
  {
    assert items[i] in items && items[j] in items;
    assert Before(items[i], items[j]);
  }

  /** A fused message names the retrievers that found it, and comes from the full-text list if that
      has it. */
  lemma FusedMessageMeaning(fulltext: seq<Message>, milvus: seq<Message>, id: int)
    ensures "fulltext" in Sources(TwoLists(fulltext, milvus), id) <==> id in IdsOf(fulltext)
    ensures "milvus" in Sources(TwoLists(fulltext, milvus), id) <==> id in IdsOf(milvus)
    ensures id in IdsOf(fulltext) ==>
              && id in KeptOfBoth(fulltext, milvus)
              && KeptOfBoth(fulltext, milvus)[id] == fulltext[FirstRank(IdsOf(fulltext), id) - 1]
  {
    var lists := TwoLists(fulltext, milvus);
    assert lists[0] in lists && lists[1] in lists;
    if id in IdsOf(fulltext) {
      KeptMeaning(map[], fulltext, id);
      KeptMeaning(Kept(map[], fulltext), milvus, id);
    }
  }

  /** `a` is ranked better than `b` in every list that holds `b`. */
  predicate Dominates(lists: seq<RankedIDs>, a: int, b: int) {
    forall i :: 0 <= i < |lists| && b in lists[i].ids ==>
      a in lists[i].ids && FirstRank(lists[i].ids, a) < FirstRank(lists[i].ids, b)
  }

  lemma {:induction false} DominatingScoresHigher(lists: seq<RankedIDs>, k: nat, a: int, b: int)
    requires Dominates(lists, a, b)
    ensures Score(lists, a, k) >= Score(lists, b, k)
    ensures Listed(lists, b) ==> Score(lists, a, k) > Score(lists, b, k)
  {
    if lists != [] {
      var n := |lists| - 1;
      DominatingScoresHigher(lists[..n], k, a, b);
      if b in lists[n].ids {
        ReciprocalDecreases(k, FirstRank(lists[n].ids, a), FirstRank(lists[n].ids, b));
      } else {
        assert Listed(lists, b) ==> Listed(lists[..n], b) by {
          assert lists == lists[..n] + [lists[n]];
        }
        assert Share(lists[n], a, k) >= 0.0;
      }
    }
  }

  /** An ID that every list holding another one ranks better comes before it. */
  lemma DominatingComesFirst(lists: seq<RankedIDs>, k: nat, items: seq<FusedID>, i: nat, j: nat)
    requires IsFusion(lists, k, items) && i < |items| && j < |items|
    requires Dominates(lists, items[i].id, items[j].id)
    ensures i < j
  {
    assert items[i] in items && items[j] in items;
    DominatingScoresHigher(lists, k, items[i].id, items[j].id);
  }
}
