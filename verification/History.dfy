/**
 From the sender's server_ack to the reader's screen: the upload pipeline (Upload) and the paging of
 the chat history (Paging) together.
 */
module History {
  import opened Messages
  import Upload
  import opened Paging

  /** Some reply shows the message, with the row of the payload. */
  ghost predicate Shows(replies: seq<Reply>, p: Payload) {
    exists k, i :: 0 <= k < |replies| && replies[k].Reply? && 0 <= i < |replies[k].ids| && i < |replies[k].rows|
      && replies[k].ids[i] == p.msgId
      && replies[k].rows[i].content == p.content && replies[k].rows[i].seqId == p.seqId
      && replies[k].rows[i].sender == p.sender && replies[k].rows[i].receiver == p.receiver
  }

  lemma {:induction false} InSomePage(pages: seq<seq<int>>, id: int) returns (k: nat, i: nat)
    requires id in Concat(pages)
    ensures k < |pages| && i < |pages[k]| && pages[k][i] == id
  {
    var n := |pages| - 1;
    if id in pages[n] {
      k := n;
      i :| 0 <= i < |pages[n]| && pages[n][i] == id;
    } else {
      k, i := InSomePage(pages[..n], id);
    }
  }

  /** A message of the chat is shown to a client that follows the cursor to its end. */
  lemma StoredMessageIsShown(p: Payload, user: int, target: int, tables: seq<Table>, limit: nat, replies: seq<Reply>)
    requires 1 <= limit <= MAX_LIMIT && Followed(tables, user, target, limit, replies)
    requires OnlyNewerRows(tables, user, target)
    requires replies[|replies| - 1].Reply? && !replies[|replies| - 1].hasMore
    requires Stored(tables[0], p) && p.groupId == 0 && multiset{user, target} == multiset{p.sender, p.receiver}
    ensures Shows(replies, p)
  {
    ConversationMeaning(tables[0], user, target, p.msgId);
    StoredInBothHistories(tables[0], p);
    ClientSeesHistoryOnce(tables, user, target, limit, replies);
    DescendingMeaning(Conversation(tables[0], user, target));
    var k, i := InSomePage(Pages(replies), p.msgId);
    ClientSeesRows(tables, user, target, limit, replies, k, i);
    assert replies[k].ids[i] == p.msgId;
  }

  /** The whole way: in every honest run, when a single-chat message with a server_ack is neither
      queued nor being worked on nor dead-lettered, both users find it in their history, once they
      have followed the cursor to its end, with its content and its sender. */
  lemma AckedMessageIsShown(tr: seq<Upload.System>, es: seq<Upload.Event>, i: nat, p: Payload,
                            user: int, target: int, tables: seq<Table>, limit: nat, replies: seq<Reply>)
    requires Upload.Run(tr, es) && i < |tr| && Upload.HonestUpTo(tr, es, i)
    requires p in tr[i].serverAcked && !p.kind.Group? && !p.kind.AI? && p.groupId == 0
    requires Upload.Upload(p) !in tr[i].ready && Upload.Upload(p) !in tr[i].dlq
    requires forall tag :: tag in tr[i].unacked ==> tr[i].unacked[tag] != Upload.Upload(p)
    requires 1 <= limit <= MAX_LIMIT && Followed(tables, user, target, limit, replies)
    requires OnlyNewerRows(tables, user, target) && tables[0] == tr[i].table
    requires replies[|replies| - 1].Reply? && !replies[|replies| - 1].hasMore
    requires multiset{user, target} == multiset{p.sender, p.receiver}
    ensures Shows(replies, p)
  {
    Upload.ServerAckedIsNeverLost(tr, es, i, p);
    StoredMessageIsShown(p, user, target, tables, limit, replies);
  }
}
