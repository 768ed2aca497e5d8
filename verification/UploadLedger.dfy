/**
 The books of the upload pipeline: what each record of the transition system (Upload) says about
 the events of the run, and where every body that the broker stored has gone.
 */
module UploadLedger {
  import opened Messages
  import opened Upload

  // ----- the Gateway's records -----

  /** A push that was confirmed, or not needed, for a job with this payload. */
  predicate PushesAt(s: System, e: Event, p: Payload) {
    e.FinishPush? && e.ok && e.tag in s.jobs && s.jobs[e.tag].body == Upload(p)
  }

  ghost predicate PushedBefore(tr: seq<System>, es: seq<Event>, i: nat, p: Payload)
    requires i <= |es| < |tr|
  {
    exists j :: 0 <= j < i && PushesAt(tr[j], es[j], p)
  }

  lemma StepPushes(s: System, e: Event, p: Payload)
    requires Enabled(s, e)
    ensures p in Apply(s, e).pushed <==> p in s.pushed || PushesAt(s, e, p)
  {
  }

  /** A payload counts as pushed if and only if a push of a job with this payload succeeded. */
  lemma {:induction false} PushedExactlyWhen(tr: seq<System>, es: seq<Event>, i: nat, p: Payload)
    requires Run(tr, es) && i < |tr|
    ensures p in tr[i].pushed <==> PushedBefore(tr, es, i, p)
  {
    if i > 0 {
      PushedExactlyWhen(tr, es, i - 1, p);
      assert StepAt(tr, es, i - 1);
      StepPushes(tr[i - 1], es[i - 1], p);
      assert PushedBefore(tr, es, i, p) <==> PushedBefore(tr, es, i - 1, p) || PushesAt(tr[i - 1], es[i - 1], p);
    }
  }

  ghost predicate Happened(es: seq<Event>, i: nat, e: Event)
    requires i <= |es|
  {
    exists j :: 0 <= j < i && es[j] == e
  }

  lemma HappenedOneMore(es: seq<Event>, i: nat, e: Event)
    requires i < |es|
    ensures Happened(es, i + 1, e) <==> Happened(es, i, e) || es[i] == e
  {
  }

  lemma StepServerAcks(s: System, e: Event, p: Payload)
    requires Enabled(s, e)
    ensures p in Apply(s, e).serverAcked <==> p in s.serverAcked || e == ServerAck(p)
  {
  }

  lemma StepConfirms(s: System, e: Event, p: Payload)
    requires Enabled(s, e)
    ensures p in Apply(s, e).confirmed <==> p in s.confirmed || e == Publish(p, Confirmed)
  {
    if !e.Publish? {
      OnlyPublishPublishes(s, e);
    }
  }

  lemma {:induction false} RecordsExactlyWhen(tr: seq<System>, es: seq<Event>, i: nat, p: Payload)
    requires Run(tr, es) && i < |tr|
    ensures p in tr[i].serverAcked <==> Happened(es, i, ServerAck(p))
    ensures p in tr[i].confirmed <==> Happened(es, i, Publish(p, Confirmed))
  {
    if i > 0 {
      RecordsExactlyWhen(tr, es, i - 1, p);
      assert StepAt(tr, es, i - 1);
      StepServerAcks(tr[i - 1], es[i - 1], p);
      StepConfirms(tr[i - 1], es[i - 1], p);
      HappenedOneMore(es, i - 1, ServerAck(p));
      HappenedOneMore(es, i - 1, Publish(p, Confirmed));
    }
  }

  /** The sender gets its server_ack only after the broker has confirmed that very message. */
  lemma ServerAckFollowsConfirm(tr: seq<System>, es: seq<Event>, i: nat, p: Payload)
    requires Run(tr, es) && i < |es| && es[i] == ServerAck(p)
    ensures Happened(es, i, Publish(p, Confirmed)) && p in tr[i + 1].serverAcked
  {
    RecordsExactlyWhen(tr, es, i, p);
    assert StepAt(tr, es, i);
  }

  // ----- how a delivery ends -----

  /** The source's three settlements, read off the outcome of the work: a stored message whose push
      succeeded and a handled group or AI chat are acked; a failed push and a failed group or AI
      chat are requeued; what cannot be parsed or inserted is rejected. */
  predicate Acks(e: Event) { (e.FinishPush? || e.HandleOther?) && e.ok }

  predicate Requeues(e: Event) { (e.FinishPush? || e.HandleOther?) && !e.ok }

  predicate Rejects(e: Event) {
    e.RejectMalformed? || (e.SingleInsert? && e.fault.Fault? && !IsDuplicateKey(e.fault.text))
  }

  predicate Settles(e: Event) { Acks(e) || Requeues(e) || Rejects(e) }

  /** What the broker holds under the tag of the event. */
  function Held(s: System, e: Event): multiset<Body> {
    if Settles(e) && e.tag in s.unacked then multiset{s.unacked[e.tag]} else multiset{}
  }

  lemma SingleSettles(s: System, tag: Tag, fault: Fault)
    requires Enabled(s, SingleInsert(tag, fault))
    ensures var e, t := SingleInsert(tag, fault), AfterSingle(s, tag, fault);
            && t.settled == (if Rejects(e) then s.settled + [tag] else s.settled)
            && t.unacked == (if Rejects(e) then s.unacked - {tag} else s.unacked)
            && t.ready == s.ready && t.nextTag == s.nextTag
            && t.dlq == (if Rejects(e) then s.dlq + Held(s, e) else s.dlq)
  {
    DuplicateTextIsRecognised();
  }

  /** The delivery of a settling event is closed, and its body goes where the event sends it. */
  ghost predicate ClosesDelivery(s: System, e: Event, t: System)
    requires Settles(e)
  {
    && t.settled == s.settled + [e.tag] && t.unacked == s.unacked - {e.tag} && t.nextTag == s.nextTag
    && t.ready == (if Requeues(e) then s.ready + Held(s, e) else s.ready)
    && t.dlq == (if Rejects(e) then s.dlq + Held(s, e) else s.dlq)
  }

  lemma MalformedCloses(s: System, tag: Tag)
    requires Enabled(s, RejectMalformed(tag))
    ensures ClosesDelivery(s, RejectMalformed(tag), Apply(s, RejectMalformed(tag)))
  {
  }

  lemma OtherCloses(s: System, tag: Tag, ok: bool, rows: map<int, Row>)
    requires Enabled(s, HandleOther(tag, ok, rows))
    ensures ClosesDelivery(s, HandleOther(tag, ok, rows), Apply(s, HandleOther(tag, ok, rows)))
  {
  }

  lemma PushCloses(s: System, tag: Tag, ok: bool)
    requires Enabled(s, FinishPush(tag, ok))
    ensures ClosesDelivery(s, FinishPush(tag, ok), Apply(s, FinishPush(tag, ok)))
  {
  }

  lemma SettlingSettles(s: System, e: Event)
    requires Enabled(s, e) && Settles(e) && !e.SingleInsert?
    ensures ClosesDelivery(s, e, Apply(s, e))
  {
    match e
    case RejectMalformed(tag) => MalformedCloses(s, tag);
    case HandleOther(tag, ok, rows) => OtherCloses(s, tag, ok, rows);
    case FinishPush(tag, ok) => PushCloses(s, tag, ok);
  }

  ghost predicate KeepsBroker(s: System, t: System) {
    t.settled == s.settled && t.dlq == s.dlq && t.nextTag == s.nextTag && t.unacked == s.unacked && t.ready == s.ready
  }

  lemma LogicKeepsBroker(s: System, e: Event)
    requires Enabled(s, e) && (e.ServerAck? || e.ToBatch? || e.BatchInsert? || e.Forget?)
    ensures KeepsBroker(s, Apply(s, e))
  {
  }

  /** What the broker does by itself and what it is handed. */
  ghost predicate MovesBody(s: System, e: Event, t: System)
    requires e.Redeliver? ==> e.tag in s.unacked
  {
    && t.settled == s.settled && t.dlq == s.dlq
    && t.nextTag == s.nextTag + (if e.Deliver? then 1 else 0)
    && (e.Deliver? ==> t.unacked == s.unacked[s.nextTag := e.body] && t.ready == s.ready - multiset{e.body})
    && (e.Redeliver? ==> t.unacked == s.unacked - {e.tag} && t.ready == s.ready + multiset{s.unacked[e.tag]})
    && (!e.Deliver? && !e.Redeliver? ==> t.unacked == s.unacked && t.ready == s.ready + Entering(e))
  }

  lemma TransportMovesBody(s: System, e: Event)
    requires Enabled(s, e) && (e.Publish? || e.PublishGarbage? || e.Deliver? || e.Redeliver?)
    ensures MovesBody(s, e, Apply(s, e))
  {
  }

  lemma OthersSettleNothing(s: System, e: Event)
    requires Enabled(s, e) && !Settles(e) && !e.SingleInsert?
    ensures MovesBody(s, e, Apply(s, e))
  {
    if e.Publish? || e.PublishGarbage? || e.Deliver? || e.Redeliver? {
      TransportMovesBody(s, e);
    } else {
      LogicKeepsBroker(s, e);
    }
  }

  /** What a publish brings into the queue: everything confirmed, and whatever else the broker kept. */
  function Entering(e: Event): multiset<Body> {
    if e.Publish? && (e.reply.Confirmed? || e.reply.stored) then multiset{Upload(e.p)}
    else if e.PublishGarbage? then multiset{Malformed}
    else multiset{}
  }

  // ----- which deliveries are open -----

  lemma {:induction false} RunKeepsJobsMatch(tr: seq<System>, es: seq<Event>, i: nat)
    requires Run(tr, es) && i < |tr|
    ensures JobsMatch(tr[i])
  {
    if i > 0 {
      RunKeepsJobsMatch(tr, es, i - 1);
      assert StepAt(tr, es, i - 1);
      StepKeepsJobsMatch(tr[i - 1], es[i - 1]);
    }
  }

  ghost predicate SettledBefore(es: seq<Event>, i: nat, tag: Tag)
    requires i <= |es|
  {
    exists j :: 0 <= j < i && Settles(es[j]) && es[j].tag == tag
  }

  lemma SettledOneMore(es: seq<Event>, i: nat, tag: Tag)
    requires i < |es|
    ensures SettledBefore(es, i + 1, tag) <==> SettledBefore(es, i, tag) || (Settles(es[i]) && es[i].tag == tag)
  {
  }

  lemma StepOpens(s: System, e: Event, tag: Tag)
    requires Enabled(s, e)
    ensures var t := Apply(s, e);
            && t.nextTag == s.nextTag + (if e.Deliver? then 1 else 0)
            && (tag in t.unacked <==>
                  (tag in s.unacked && e != Redeliver(tag) && !(Settles(e) && e.tag == tag))
                  || (e.Deliver? && tag == s.nextTag))
  {
    if e.SingleInsert? {
      SingleSettles(s, e.tag, e.fault);
    } else if Settles(e) {
      SettlingSettles(s, e);
    } else {
      OthersSettleNothing(s, e);
    }
  }

  lemma EventsConcernOldTags(s: System, e: Event, tag: Tag)
    requires JobsMatch(s) && Enabled(s, e) && tag >= s.nextTag
    ensures e != Redeliver(tag) && !(Settles(e) && e.tag == tag)
  {
  }

  lemma {:induction false} NothingYet(tr: seq<System>, es: seq<Event>, i: nat, tag: Tag)
    requires Run(tr, es) && i < |tr| && tag >= tr[i].nextTag
    ensures !Happened(es, i, Redeliver(tag)) && !SettledBefore(es, i, tag)
  {
    if i > 0 {
      assert StepAt(tr, es, i - 1);
      StepOpens(tr[i - 1], es[i - 1], tag);
      NothingYet(tr, es, i - 1, tag);
      RunKeepsJobsMatch(tr, es, i - 1);
      EventsConcernOldTags(tr[i - 1], es[i - 1], tag);
      HappenedOneMore(es, i - 1, Redeliver(tag));
      SettledOneMore(es, i - 1, tag);
    }
  }

  /** The broker waits for the settlement of a delivery if and only if it has handed it out, has not
      taken it back, and has not seen it acked, requeued or rejected. */
  lemma {:induction false} OpenExactlyWhen(tr: seq<System>, es: seq<Event>, i: nat, tag: Tag)
    requires Run(tr, es) && i < |tr|
    ensures tag in tr[i].unacked <==>
            tag < tr[i].nextTag && !Happened(es, i, Redeliver(tag)) && !SettledBefore(es, i, tag)
  {
    if i > 0 {
      OpenExactlyWhen(tr, es, i - 1, tag);
      assert StepAt(tr, es, i - 1);
      StepOpens(tr[i - 1], es[i - 1], tag);
      HappenedOneMore(es, i - 1, Redeliver(tag));
      SettledOneMore(es, i - 1, tag);
      if tag >= tr[i - 1].nextTag {
        NothingYet(tr, es, i - 1, tag);
        RunKeepsJobsMatch(tr, es, i - 1);
      }
    }
  }

  // ----- which rows exist -----

  /** The statement takes effect: it does not fail, or fails after its commit. */
  predicate TakesEffect(fault: Fault) { fault.NoFault? || fault.committed }

  ghost predicate Inserts(s: System, e: Event, id: int)
    requires Enabled(s, e)
  {
    || (e.HandleOther? && id in e.rows)
    || (e.SingleInsert? && TakesEffect(e.fault) && s.jobs[e.tag].body.p.msgId == id)
    || (e.BatchInsert? && TakesEffect(e.fault) && BatchFits(s.table, BatchOf(s, e.tags))
        && exists p :: p in BatchOf(s, e.tags) && p.msgId == id)
  }

  lemma BatchInserts(s: System, tags: seq<Tag>, fault: Fault, id: int)
    requires Enabled(s, BatchInsert(tags, fault))
    ensures id in AfterBatch(s, tags, fault).table <==> id in s.table || Inserts(s, BatchInsert(tags, fault), id)
  {
    BatchIsAllOrNothing(s.table, BatchOf(s, tags), fault);
  }

  lemma SingleInserts(s: System, tag: Tag, fault: Fault, id: int)
    requires Enabled(s, SingleInsert(tag, fault))
    ensures id in AfterSingle(s, tag, fault).table <==> id in s.table || Inserts(s, SingleInsert(tag, fault), id)
  {
  }

  lemma TransportInsertsNothing(s: System, e: Event)
    requires Enabled(s, e) && (e.Publish? || e.PublishGarbage? || e.ServerAck? || e.Deliver? || e.Redeliver?)
    ensures Apply(s, e).table == s.table
  {
  }

  lemma OthersInsertNothing(s: System, e: Event)
    requires Enabled(s, e) && (e.RejectMalformed? || e.ToBatch? || e.FinishPush? || e.Forget?)
    ensures Apply(s, e).table == s.table
  {
  }

  lemma StepInserts(s: System, e: Event, id: int)
    requires Enabled(s, e)
    ensures id in Apply(s, e).table <==> id in s.table || Inserts(s, e, id)
  {
    match e
    case BatchInsert(tags, fault) => BatchInserts(s, tags, fault, id);
    case SingleInsert(tag, fault) => SingleInserts(s, tag, fault, id);
    case HandleOther(tag, ok, rows) =>
    case Publish(_, _) => TransportInsertsNothing(s, e);
    case PublishGarbage => TransportInsertsNothing(s, e);
    case ServerAck(_) => TransportInsertsNothing(s, e);
    case Deliver(_) => TransportInsertsNothing(s, e);
    case Redeliver(_) => TransportInsertsNothing(s, e);
    case _ => OthersInsertNothing(s, e);
  }

  ghost predicate InsertedBefore(tr: seq<System>, es: seq<Event>, i: nat, id: int)
    requires i <= |es| < |tr|
  {
    exists j :: 0 <= j < i && Enabled(tr[j], es[j]) && Inserts(tr[j], es[j], id)
  }

  lemma InsertedOneMore(tr: seq<System>, es: seq<Event>, i: nat, id: int)
    requires i < |es| < |tr| && Enabled(tr[i], es[i])
    ensures InsertedBefore(tr, es, i + 1, id) <==> InsertedBefore(tr, es, i, id) || Inserts(tr[i], es[i], id)
  {
  }

  /** A message is in the table if and only if an insert of it took effect: one whose failure the
      client saw counts when it was committed, and one that reported no failure always does. */
  lemma {:induction false} RowsExactlyWhen(tr: seq<System>, es: seq<Event>, i: nat, id: int)
    requires Run(tr, es) && i < |tr|
    ensures id in tr[i].table <==> InsertedBefore(tr, es, i, id)
  {
    if i > 0 {
      RowsExactlyWhen(tr, es, i - 1, id);
      assert StepAt(tr, es, i - 1);
      StepInserts(tr[i - 1], es[i - 1], id);
      InsertedOneMore(tr, es, i - 1, id);
    }
  }

  // ----- conservation -----

  /** The open deliveries of a body. */
  function OpenTags(unacked: map<Tag, Body>, b: Body): set<Tag> {
    set tag | tag in unacked && unacked[tag] == b
  }

  lemma OpenTagsWithout(unacked: map<Tag, Body>, tag: Tag, b: Body)
    ensures |OpenTags(unacked - {tag}, b)|
         == |OpenTags(unacked, b)| - if tag in unacked && unacked[tag] == b then 1 else 0
  {
    if tag in unacked && unacked[tag] == b {
      assert OpenTags(unacked, b) == OpenTags(unacked - {tag}, b) + {tag};
    } else {
      assert OpenTags(unacked, b) == OpenTags(unacked - {tag}, b);
    }
  }

  lemma OpenTagsWith(unacked: map<Tag, Body>, tag: Tag, body: Body, b: Body)
    requires tag !in unacked
    ensures |OpenTags(unacked[tag := body], b)| == |OpenTags(unacked, b)| + if body == b then 1 else 0
  {
    if body == b {
      assert OpenTags(unacked[tag := body], b) == OpenTags(unacked, b) + {tag};
    } else {
      assert OpenTags(unacked[tag := body], b) == OpenTags(unacked, b);
    }
  }

  /** All bodies that entered the queue, were acked, and were rejected, up to the i-th state. */
  function Entered(es: seq<Event>, i: nat): multiset<Body>
    requires i <= |es|
  {
    if i == 0 then multiset{} else Entered(es, i - 1) + Entering(es[i - 1])
  }

  function Acked(tr: seq<System>, es: seq<Event>, i: nat): multiset<Body>
    requires i <= |es| < |tr|
  {
    if i == 0 then multiset{}
    else Acked(tr, es, i - 1) + if Acks(es[i - 1]) then Held(tr[i - 1], es[i - 1]) else multiset{}
  }

  function Rejected(tr: seq<System>, es: seq<Event>, i: nat): multiset<Body>
    requires i <= |es| < |tr|
  {
    if i == 0 then multiset{}
    else Rejected(tr, es, i - 1) + if Rejects(es[i - 1]) then Held(tr[i - 1], es[i - 1]) else multiset{}
  }

  /** How often a body is in the queue or in an open delivery. */
  function InBroker(s: System, b: Body): nat { s.ready[b] + |OpenTags(s.unacked, b)| }

  /** The step changes the books by what enters and what is settled. */
  ghost predicate Balanced(s: System, e: Event, t: System, b: Body) {
    && InBroker(t, b) == InBroker(s, b) + Entering(e)[b] - (if Acks(e) || Rejects(e) then Held(s, e)[b] else 0)
    && t.dlq == s.dlq + (if Rejects(e) then Held(s, e) else multiset{})
  }

  lemma ClosingBalances(s: System, e: Event, t: System, b: Body)
    requires Settles(e) && ClosesDelivery(s, e, t)
    ensures Balanced(s, e, t, b)
  {
    var open := if e.tag in s.unacked && s.unacked[e.tag] == b then 1 else 0;
    assert |OpenTags(t.unacked, b)| == |OpenTags(s.unacked, b)| - open by {
      OpenTagsWithout(s.unacked, e.tag, b);
    }
    assert Held(s, e)[b] == open && Entering(e)[b] == 0;
    assert t.ready[b] == s.ready[b] + if Requeues(e) then open else 0;
  }

  lemma MovingBalances(s: System, e: Event, b: Body)
    requires JobsMatch(s) && Enabled(s, e) && (e.Deliver? || e.Redeliver?)
    ensures Balanced(s, e, Apply(s, e), b)
  {
    OthersSettleNothing(s, e);
    if e.Deliver? {
      OpenTagsWith(s.unacked, s.nextTag, e.body, b);
    } else {
      OpenTagsWithout(s.unacked, e.tag, b);
    }
  }

  lemma StepBalances(s: System, e: Event, b: Body)
    requires JobsMatch(s) && Enabled(s, e)
    ensures Balanced(s, e, Apply(s, e), b)
  {
    if e.SingleInsert? {
      SingleSettles(s, e.tag, e.fault);
      if Settles(e) {
        ClosingBalances(s, e, AfterSingle(s, e.tag, e.fault), b);
      }
    } else if Settles(e) {
      SettlingSettles(s, e);
      ClosingBalances(s, e, Apply(s, e), b);
    } else if e.Deliver? || e.Redeliver? {
      MovingBalances(s, e, b);
    } else {
      OthersSettleNothing(s, e);
    }
  }

  lemma EnteredOneMore(es: seq<Event>, i: nat, b: Body)
    requires 0 < i <= |es|
    ensures Entered(es, i)[b] == Entered(es, i - 1)[b] + Entering(es[i - 1])[b]
  {
  }

  lemma AckedOneMore(tr: seq<System>, es: seq<Event>, i: nat, b: Body)
    requires 0 < i <= |es| < |tr|
    ensures Acked(tr, es, i)[b] == Acked(tr, es, i - 1)[b] + if Acks(es[i - 1]) then Held(tr[i - 1], es[i - 1])[b] else 0
  {
  }

  lemma BalancedCounts(s: System, e: Event, t: System, b: Body)
    requires Balanced(s, e, t, b)
    ensures InBroker(t, b) + t.dlq[b] + (if Acks(e) then Held(s, e)[b] else 0) == InBroker(s, b) + s.dlq[b] + Entering(e)[b]
  {
  }

  lemma NothingAtStart(b: Body)
    ensures InBroker(Start, b) == 0 && Start.dlq[b] == 0
  {
    assert OpenTags(map[], b) == {};
  }

  /** Whatever is counted, and whichever steps change it by what enters and what is acked. */
  lemma {:induction false} ChangesAddUp(counts: seq<int>, tr: seq<System>, es: seq<Event>, i: nat, b: Body)
    requires i <= |es| < |tr| && |counts| == |tr| && counts[0] == 0
    requires forall j :: 0 <= j < i ==>
               counts[j + 1] + (if Acks(es[j]) then Held(tr[j], es[j])[b] else 0) == counts[j] + Entering(es[j])[b]
    ensures Entered(es, i)[b] == counts[i] + Acked(tr, es, i)[b]
  {
    if i > 0 {
      ChangesAddUp(counts, tr, es, i - 1, b);
      EnteredOneMore(es, i, b);
      AckedOneMore(tr, es, i, b);
      assert counts[i - 1 + 1] == counts[i];
    }
  }

  lemma BalancesAddUp(tr: seq<System>, es: seq<Event>, i: nat, b: Body)
    requires i <= |es| < |tr| && tr[0] == Start
    requires forall j :: 0 <= j < i ==> Balanced(tr[j], es[j], tr[j + 1], b)
    ensures Entered(es, i)[b] == InBroker(tr[i], b) + tr[i].dlq[b] + Acked(tr, es, i)[b]
  {
    var counts := seq(|tr|, j requires 0 <= j < |tr| => InBroker(tr[j], b) + tr[j].dlq[b]);
    NothingAtStart(b);
    forall j | 0 <= j < i
      ensures counts[j + 1] + (if Acks(es[j]) then Held(tr[j], es[j])[b] else 0) == counts[j] + Entering(es[j])[b]
    {
      assert Balanced(tr[j], es[j], tr[j + 1], b);
      BalancedCounts(tr[j], es[j], tr[j + 1], b);
    }
    ChangesAddUp(counts, tr, es, i, b);
  }

  lemma {:induction false} RejectionsAddUp(tr: seq<System>, es: seq<Event>, i: nat, b: Body)
    requires i <= |es| < |tr| && tr[0] == Start
    requires forall j :: 0 <= j < i ==> Balanced(tr[j], es[j], tr[j + 1], b)
    ensures tr[i].dlq == Rejected(tr, es, i)
  {
    if i > 0 {
      RejectionsAddUp(tr, es, i - 1, b);
      assert Balanced(tr[i - 1], es[i - 1], tr[i - 1 + 1], b);
    }
  }

  /** Conservation: in every run every copy of a body that entered the queue is there still, in an
      open delivery, dead-lettered, or acked, and each in one place only. What is dead-lettered is
      what was rejected. */
  lemma BodiesConserved(tr: seq<System>, es: seq<Event>, i: nat, b: Body)
    requires Run(tr, es) && i < |tr|
    ensures Entered(es, i)[b] == InBroker(tr[i], b) + tr[i].dlq[b] + Acked(tr, es, i)[b]
    ensures tr[i].dlq == Rejected(tr, es, i)
  {
    forall j | 0 <= j < i
      ensures Balanced(tr[j], es[j], tr[j + 1], b)
    {
      RunKeepsJobsMatch(tr, es, j);
      assert StepAt(tr, es, j);
      StepBalances(tr[j], es[j], b);
    }
    BalancesAddUp(tr, es, i, b);
    RejectionsAddUp(tr, es, i, b);
  }

  /** A push that fails, for whatever reason, puts the message back into the queue. */
  lemma FailedPushIsRequeued(s: System, tag: Tag)
    requires Enabled(s, FinishPush(tag, false)) && tag in s.unacked
    ensures var t := Apply(s, FinishPush(tag, false));
            && t.ready == s.ready + multiset{s.unacked[tag]} && tag !in t.unacked
            && t.dlq == s.dlq && t.pushed == s.pushed && t.table == s.table
  {
    SettlingSettles(s, FinishPush(tag, false));
  }
}
