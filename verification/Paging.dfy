/**
 Cursor paging through a chat history (apps/logic/dao/messages.go and
 apps/logic/service/chat_service.go), without the first-page cache.
 */
module Paging {
  import opened Messages

  const MAX_LIMIT := 200
  const DEFAULT_LIMIT := 20

  // ----- the query -----

  predicate Between(r: Row, user: int, target: int) {
    r.groupId == 0 && ((r.sender == user && r.receiver == target) || (r.sender == target && r.receiver == user))
  }

  /** The messages of a single chat. */
  function Conversation(t: Table, user: int, target: int): set<int> {
    set id | id in t && Between(t[id], user, target)
  }

  function Below(ids: set<int>, cursor: int): set<int> {
    set id | id in ids && id < cursor
  }

  /** Without a cursor the newest messages are taken. */
  function Selected(ids: set<int>, cursor: int): set<int> {
    if cursor > 0 then Below(ids, cursor) else ids
  }

  lemma {:induction false} MaxExists(ids: set<int>) returns (m: int)
    requires ids != {}
    ensures m in ids && forall id :: id in ids ==> id <= m
    decreases |ids|
  {
    assert (forall id :: id !in ids) ==> ids == {};
    m :| m in ids;
    var others := ids - {m};
    assert forall id :: id in ids ==> id == m || id in others;
    if others != {} {
      var n := MaxExists(others);
      if n > m {
        m := n;
      }
    }
  }

  ghost function MaxOf(ids: set<int>): (m: int)
    requires ids != {}
    ensures m in ids && forall id :: id in ids ==> id <= m
  {
    assert exists m :: m in ids && forall id :: id in ids ==> id <= m by {
      var m := MaxExists(ids);
    }
    var m :| m in ids && forall id :: id in ids ==> id <= m;
    m
  }

  /** ORDER BY msg_id DESC. */
  ghost function Descending(ids: set<int>): seq<int>
    decreases |ids|
  {
    if ids == {} then [] else [MaxOf(ids)] + Descending(ids - {MaxOf(ids)})
  }

  function Effective(limit: int): nat {
    if limit <= 0 || limit > MAX_LIMIT then DEFAULT_LIMIT else limit
  }

  ghost function FirstOf(ids: seq<int>, n: nat): seq<int> {
    if n < |ids| then ids[..n] else ids
  }

  /** The page that the query returns. */
  ghost function Page(ids: set<int>, cursor: int, limit: int): seq<int> {
    FirstOf(Descending(Selected(ids, cursor)), Effective(limit))
  }

  // ----- the reply -----

  /** `Crash` is the index out of range that a request for zero messages can run into. */
  datatype Reply = Crash | Reply(ids: seq<int>, rows: seq<Row>, hasMore: bool, nextCursor: int)

  /** The reply on a page: its messages and rows in order, HasMore when the page has as many as were
      asked for, and then the last one as the next cursor. */
  predicate IsReply(t: Table, page: seq<int>, limit: int, r: Reply)
    requires forall i :: 0 <= i < |page| ==> page[i] in t
  {
    && (r.Crash? <==> limit == 0 && page == [])
    && (r.Reply? ==>
          && r.ids == page && |r.rows| == |page|
          && (forall i :: 0 <= i < |page| ==> r.rows[i] == t[page[i]])
          && r.hasMore == (|page| == limit)
          && r.nextCursor == if r.hasMore then page[|page| - 1] else 0)
  }

  /** The service on the rows that the query returned. */
  method BuildReply(t: Table, page: seq<int>, limit: int) returns (r: Reply)
    requires forall i :: 0 <= i < |page| ==> page[i] in t
    ensures IsReply(t, page, limit, r)
  {
    var ids: seq<int>, rows: seq<Row> := [], [];
    for i := 0 to |page|
      invariant ids == page[..i] && |rows| == i
      invariant forall k :: 0 <= k < i ==> rows[k] == t[page[k]]
    {
      ids := ids + [page[i]];
      rows := rows + [t[page[i]]];
    }
    if |page| == limit {
      if |page| == 0 {
        return Crash;
      }
      return Reply(ids, rows, true, page[|page| - 1]);
    }
    return Reply(ids, rows, false, 0);
  }

  // ----- facts about the order -----

  lemma {:induction false} DescendingMeaning(ids: set<int>)
    ensures |Descending(ids)| == |ids|
    ensures forall id :: id in Descending(ids) <==> id in ids
    ensures forall i, j :: 0 <= i < j < |Descending(ids)| ==> Descending(ids)[i] > Descending(ids)[j]
    decreases |ids|
  {
    if ids != {} {
      var m := MaxOf(ids);
      DescendingMeaning(ids - {m});
      PrependMax(ids, m, Descending(ids - {m}));
    }
  }

  lemma PrependMax(ids: set<int>, m: int, tail: seq<int>)
    requires m in ids && (forall id :: id in ids ==> id <= m)
    requires |tail| == |ids - {m}| && (forall id :: id in tail <==> id in ids - {m})
    requires forall i, j :: 0 <= i < j < |tail| ==> tail[i] > tail[j]
    ensures |[m] + tail| == |ids| && (forall id :: id in [m] + tail <==> id in ids)
    ensures forall i, j :: 0 <= i < j < |[m] + tail| ==> ([m] + tail)[i] > ([m] + tail)[j]
  {
    assert |ids - {m}| == |ids| - 1;
    assert forall i :: 0 <= i < |tail| ==> tail[i] in tail;
  }

  lemma BelowWithoutMax(ids: set<int>, m: int, c: int)
    requires c <= m
    ensures Below(ids, c) == Below(ids - {m}, c)
  {
  }

  lemma BelowMax(ids: set<int>)
    requires ids != {}
    ensures Below(ids, MaxOf(ids)) == ids - {MaxOf(ids)}
  {
  }

  lemma ShiftedTail(m: int, tail: seq<int>, j: nat)
    requires 0 < j <= |tail|
    ensures ([m] + tail)[j] == tail[j - 1] && ([m] + tail)[j + 1..] == tail[j..]
  {
  }

  /** What lies below the j-th message is what follows it. */
  lemma {:induction false} BelowIsTail(ids: set<int>, j: nat)
    requires j < |Descending(ids)|
    ensures Descending(Below(ids, Descending(ids)[j])) == Descending(ids)[j + 1..]
    decreases |ids|
  {
    var m := MaxOf(ids);
    var tail := Descending(ids - {m});
    assert Descending(ids) == [m] + tail;
    if j == 0 {
      BelowMax(ids);
      assert ([m] + tail)[1..] == tail;
    } else {
      ShiftedTail(m, tail, j);
      BelowIsTail(ids - {m}, j - 1);
      DescendingMember(ids - {m}, j - 1);
      BelowWithoutMax(ids, m, tail[j - 1]);
    }
  }

  lemma DescendingMember(ids: set<int>, i: nat)
    requires i < |Descending(ids)|
    ensures Descending(ids)[i] in ids
  {
    DescendingMeaning(ids);
    assert Descending(ids)[i] in Descending(ids);
  }

  // ----- following the cursor -----

  /** The cursor of the k-th request: none at first, then the last message of the page before. */
  function CursorAt(pages: seq<seq<int>>, k: nat): int
    requires 0 < k <= |pages| ==> pages[k - 1] != []
    requires k <= |pages|
  {
    if k == 0 then 0 else pages[k - 1][|pages[k - 1]| - 1]
  }

  ghost predicate Answers(states: seq<set<int>>, limit: nat, pages: seq<seq<int>>, k: nat)
    requires k < |pages| == |states|
    requires 1 <= limit && forall i :: 0 <= i < |pages| - 1 ==> |pages[i]| == limit
  {
    pages[k] == Page(states[k], CursorAt(pages, k), limit)
  }

  /** The k-th request sees `states[k]`; every page but the last is full, so that HasMore is set. */
  ghost predicate Walk(states: seq<set<int>>, limit: nat, pages: seq<seq<int>>)
    requires 1 <= limit
  {
    && |states| == |pages| > 0
    && (forall k :: 0 <= k < |pages| - 1 ==> |pages[k]| == limit)
    && (forall k :: 0 <= k < |pages| ==> Answers(states, limit, pages, k))
  }

  /** Meanwhile only newer messages arrive. */
  ghost predicate OnlyNewer(states: seq<set<int>>) {
    && states != []
    && (forall id :: id in states[0] ==> id > 0)
    && (forall k :: 0 <= k < |states| ==> states[0] <= states[k])
    && (forall k, id, old_ :: 0 <= k < |states| && id in states[k] && id !in states[0] && old_ in states[0] ==> old_ < id)
  }

  function Concat(pages: seq<seq<int>>): seq<int> {
    if pages == [] then [] else Concat(pages[..|pages| - 1]) + pages[|pages| - 1]
  }

  lemma NewerDoNotShow(states: seq<set<int>>, k: nat, c: int)
    requires OnlyNewer(states) && k < |states| && c in states[0]
    ensures Below(states[k], c) == Below(states[0], c)
  {
  }

  /** Where the k-th page starts: k * limit. */
  function StartOf(limit: nat, k: nat): nat {
    if k == 0 then 0 else StartOf(limit, k - 1) + limit
  }

  /** A full page that starts at `start` is followed by the page that starts where it ends. */
  lemma NextPage(states: seq<set<int>>, limit: nat, k: nat, start: nat, c: int)
    requires 1 <= limit <= MAX_LIMIT && OnlyNewer(states) && k < |states|
    requires start + limit <= |Descending(states[0])| && c == Descending(states[0])[start + limit - 1]
    ensures Page(states[k], c, limit) == FirstOf(Descending(states[0])[start + limit..], limit)
  {
    DescendingMeaning(states[0]);
    assert c in Descending(states[0]);
    NewerDoNotShow(states, k, c);
    BelowIsTail(states[0], start + limit - 1);
  }

  lemma FullPage(all: seq<int>, start: nat, limit: nat, page: seq<int>)
    requires start <= |all| && 0 < limit == |page| && page == FirstOf(all[start..], limit)
    ensures start + limit <= |all| && page[limit - 1] == all[start + limit - 1]
    ensures all[..start + limit] == all[..start] + page
  {
  }

  /** After k full pages exactly the first k * limit messages have been shown. */
  lemma {:induction false} PagesSoFar(states: seq<set<int>>, limit: nat, pages: seq<seq<int>>, k: nat)
    requires 1 <= limit <= MAX_LIMIT && Walk(states, limit, pages) && OnlyNewer(states) && k < |pages|
    ensures StartOf(limit, k) <= |Descending(states[0])|
    ensures Concat(pages[..k]) == Descending(states[0])[..StartOf(limit, k)]
    ensures pages[k] == FirstOf(Descending(states[0])[StartOf(limit, k)..], limit)
  {
    var all := Descending(states[0]);
    assert Answers(states, limit, pages, k);
    if k == 0 {
      assert all[0..] == all;
    } else {
      PagesSoFar(states, limit, pages, k - 1);
      var start := StartOf(limit, k - 1);
      FullPage(all, start, limit, pages[k - 1]);
      NextPage(states, limit, k, start, CursorAt(pages, k));
      assert pages[..k][..k - 1] == pages[..k - 1];
    }
  }

  /** Complete paging: following the cursor until HasMore is unset shows the messages that were
      there at the start, each once, newest first, in floor(N / limit) + 1 pages. */
  lemma WalkShowsEverythingOnce(states: seq<set<int>>, limit: nat, pages: seq<seq<int>>)
    requires 1 <= limit <= MAX_LIMIT && Walk(states, limit, pages) && OnlyNewer(states)
    requires |pages[|pages| - 1]| != limit
    ensures Concat(pages) == Descending(states[0])
    ensures |pages| == |states[0]| / limit + 1
  {
    var n := |pages| - 1;
    var all := Descending(states[0]);
    DescendingMeaning(states[0]);
    PagesSoFar(states, limit, pages, n);
    assert all == all[..StartOf(limit, n)] + all[StartOf(limit, n)..];
    StartIsProduct(limit, n);
    QuotientIs(|all|, limit, n, |pages[n]|);
  }

  lemma {:induction false} StartIsProduct(limit: nat, k: nat)
    ensures StartOf(limit, k) == k * limit
  {
    if k > 0 {
      StartIsProduct(limit, k - 1);
    }
  }

  lemma QuotientIs(total: nat, limit: nat, n: nat, last: nat)
    requires limit > 0 && total == n * limit + last && last < limit
    ensures total / limit == n
  {
    var q := total / limit;
    assert total == q * limit + total % limit;
    assert (n - q) * limit == n * limit - q * limit;
    if q < n {
      AtLeastOnce(n - q, limit);
    } else if q > n {
      AtLeastOnce(q - n, limit);
    }
  }

  lemma AtLeastOnce(k: nat, m: nat)
    requires k > 0
    ensures k * m >= m
  {
  }

  /** And HasMore is unset at last: no walk is longer than that. */
  lemma WalkEnds(states: seq<set<int>>, limit: nat, pages: seq<seq<int>>)
    requires 1 <= limit <= MAX_LIMIT && Walk(states, limit, pages) && OnlyNewer(states)
    ensures (|pages| - 1) * limit <= |states[0]|
  {
    DescendingMeaning(states[0]);
    PagesSoFar(states, limit, pages, |pages| - 1);
    StartIsProduct(limit, |pages| - 1);
  }

  // ----- limits that the query replaces -----

  /** With a limit that the query replaces by its default, HasMore is never set, except for the
      limit 0 on an empty history, which is the index out of range. So the first page is all that
      is ever shown, and it is the whole history exactly when that has at most 20 messages. */
  lemma ReplacedLimitShowsAllExactlyWhen(ids: set<int>, limit: int)
    requires limit <= 0 || limit > MAX_LIMIT
    ensures |Page(ids, 0, limit)| == limit <==> limit == 0 && ids == {}
    ensures Page(ids, 0, limit) == Descending(ids) <==> |ids| <= DEFAULT_LIMIT
  {
    DescendingMeaning(ids);
  }

  // ----- whose messages a history shows -----

  /** The history of two users is the messages outside groups that one of them sent to the other. */
  lemma ConversationMeaning(t: Table, user: int, target: int, id: int)
    ensures id in Conversation(t, user, target) <==>
            id in t && t[id].groupId == 0 && multiset{t[id].sender, t[id].receiver} == multiset{user, target}
  {
    if id in t {
      SamePair(t[id].sender, t[id].receiver, user, target);
    }
  }

  lemma SamePair(a: int, b: int, c: int, d: int)
    ensures multiset{a, b} == multiset{c, d} <==> (a == c && b == d) || (a == d && b == c)
  {
    if multiset{a, b} == multiset{c, d} {
      assert a in multiset{c, d} && b in multiset{c, d};
      assert c in multiset{a, b} && d in multiset{a, b};
    }
  }

  /** A stored single-chat message is in the history of its sender and of its receiver, with the
      content and the users it was sent with. */
  lemma StoredInBothHistories(t: Table, p: Payload)
    requires Stored(t, p) && p.groupId == 0
    ensures p.msgId in Conversation(t, p.sender, p.receiver) && p.msgId in Conversation(t, p.receiver, p.sender)
    ensures t[p.msgId].sender == p.sender && t[p.msgId].receiver == p.receiver
    ensures t[p.msgId].content == p.content && t[p.msgId].seqId == p.seqId
  {
    ConversationMeaning(t, p.sender, p.receiver, p.msgId);
    ConversationMeaning(t, p.receiver, p.sender, p.msgId);
  }

  // ----- a client that follows the cursor through the replies -----

  /** What the query answers on a table. */
  ghost function History(t: Table, user: int, target: int, cursor: int, limit: int): (page: seq<int>)
    ensures forall i :: 0 <= i < |page| ==> page[i] in t
  {
    var ids := Selected(Conversation(t, user, target), cursor);
    DescendingMeaning(ids);
    assert forall i :: 0 <= i < |Descending(ids)| ==> Descending(ids)[i] in ids;
    Page(Conversation(t, user, target), cursor, limit)
  }

  function CursorAfter(replies: seq<Reply>, k: nat): int
    requires k <= |replies| && (k > 0 ==> replies[k - 1].Reply?)
  {
    if k == 0 then 0 else replies[k - 1].nextCursor
  }

  /** The k-th request carries the cursor of the reply before it and sees the k-th table. */
  ghost predicate Answered(tables: seq<Table>, user: int, target: int, limit: int, replies: seq<Reply>, k: nat)
    requires k < |replies| == |tables| && (k > 0 ==> replies[k - 1].Reply?)
  {
    IsReply(tables[k], History(tables[k], user, target, CursorAfter(replies, k), limit), limit, replies[k])
  }

  /** The client asks on as long as HasMore is set. */
  ghost predicate Followed(tables: seq<Table>, user: int, target: int, limit: int, replies: seq<Reply>) {
    && |tables| == |replies| > 0
    && (forall k :: 0 <= k < |replies| - 1 ==> replies[k].Reply? && replies[k].hasMore)
    && (forall k :: 0 <= k < |replies| ==> Answered(tables, user, target, limit, replies, k))
  }

  /** Rows stay, and meanwhile only newer messages arrive in the chat. */
  ghost predicate OnlyNewerRows(tables: seq<Table>, user: int, target: int) {
    && tables != []
    && (forall k, id :: 0 <= k < |tables| && id in tables[0] ==> id in tables[k] && tables[k][id] == tables[0][id])
    && OnlyNewer(Chats(tables, user, target))
  }

  function Chats(tables: seq<Table>, user: int, target: int): seq<set<int>> {
    seq(|tables|, k requires 0 <= k < |tables| => Conversation(tables[k], user, target))
  }

  function PageOf(r: Reply): seq<int> { if r.Reply? then r.ids else [] }

  function Pages(replies: seq<Reply>): seq<seq<int>> {
    seq(|replies|, k requires 0 <= k < |replies| => PageOf(replies[k]))
  }

  lemma OneAnswer(tables: seq<Table>, user: int, target: int, limit: nat, replies: seq<Reply>, k: nat)
    requires 1 <= limit && Followed(tables, user, target, limit, replies) && k < |replies|
    ensures var r := replies[k];
            && r.Reply? && r.ids == Page(Conversation(tables[k], user, target), CursorAfter(replies, k), limit)
            && (r.hasMore <==> |r.ids| == limit) && (r.hasMore ==> r.nextCursor == r.ids[|r.ids| - 1])
            && |r.rows| == |r.ids| && forall i :: 0 <= i < |r.ids| ==> r.ids[i] in tables[k] && r.rows[i] == tables[k][r.ids[i]]
  {
    assert Answered(tables, user, target, limit, replies, k);
  }

  lemma AllAnswers(tables: seq<Table>, user: int, target: int, limit: nat, replies: seq<Reply>)
    requires 1 <= limit && Followed(tables, user, target, limit, replies)
    ensures forall k :: 0 <= k < |replies| ==>
              replies[k].Reply? && Pages(replies)[k] == replies[k].ids && (replies[k].hasMore <==> |replies[k].ids| == limit)
  {
    forall k | 0 <= k < |replies|
      ensures replies[k].Reply? && Pages(replies)[k] == replies[k].ids && (replies[k].hasMore <==> |replies[k].ids| == limit)
    {
      OneAnswer(tables, user, target, limit, replies, k);
    }
  }

  lemma FollowedIsWalk(tables: seq<Table>, user: int, target: int, limit: nat, replies: seq<Reply>)
    requires 1 <= limit && Followed(tables, user, target, limit, replies)
    ensures Walk(Chats(tables, user, target), limit, Pages(replies))
  {
    var states, pages := Chats(tables, user, target), Pages(replies);
    AllAnswers(tables, user, target, limit, replies);
    forall k | 0 <= k < |pages|
      ensures Answers(states, limit, pages, k)
    {
      OneAnswer(tables, user, target, limit, replies, k);
      if k > 0 {
        OneAnswer(tables, user, target, limit, replies, k - 1);
      }
    }
  }

  /** Complete paging, from the client's side: when the last reply has HasMore unset, the replies
      together hold the messages that were in the chat at the start, each once and newest first,
      in floor(N / limit) + 1 replies. */
  lemma ClientSeesHistoryOnce(tables: seq<Table>, user: int, target: int, limit: nat, replies: seq<Reply>)
    requires 1 <= limit <= MAX_LIMIT && Followed(tables, user, target, limit, replies)
    requires OnlyNewerRows(tables, user, target)
    requires replies[|replies| - 1].Reply? && !replies[|replies| - 1].hasMore
    ensures Concat(Pages(replies)) == Descending(Conversation(tables[0], user, target))
    ensures |replies| == |Conversation(tables[0], user, target)| / limit + 1
  {
    FollowedIsWalk(tables, user, target, limit, replies);
    AllAnswers(tables, user, target, limit, replies);
    WalkShowsEverythingOnce(Chats(tables, user, target), limit, Pages(replies));
  }

  /** And each message comes with the row that it had at the start. */
  lemma ClientSeesRows(tables: seq<Table>, user: int, target: int, limit: nat, replies: seq<Reply>, k: nat, i: nat)
    requires 1 <= limit <= MAX_LIMIT && Followed(tables, user, target, limit, replies)
    requires OnlyNewerRows(tables, user, target)
    requires replies[|replies| - 1].Reply? && !replies[|replies| - 1].hasMore
    requires k < |replies| && i < |Pages(replies)[k]|
    ensures replies[k].Reply? && i < |replies[k].rows|
    ensures Pages(replies)[k][i] in tables[0] && replies[k].rows[i] == tables[0][Pages(replies)[k][i]]
  {
    ClientSeesHistoryOnce(tables, user, target, limit, replies);
    OneAnswer(tables, user, target, limit, replies, k);
    InConcat(Pages(replies), k, i);
    DescendingMeaning(Conversation(tables[0], user, target));
  }

  lemma {:induction false} InConcat(pages: seq<seq<int>>, k: nat, i: nat)
    requires k < |pages| && i < |pages[k]|
    ensures pages[k][i] in Concat(pages)
  {
    if k < |pages| - 1 {
      InConcat(pages[..|pages| - 1], k, i);
    }
  }
}
