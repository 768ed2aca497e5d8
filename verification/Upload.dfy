/**
 The upload pipeline, Gateway to RabbitMQ to Logic to MySQL (apps/gateway/ws/chat.go,
 apps/pkg/mq/rabbitmq.go, apps/logic/service/upload_consumer.go), as a transition system whose
 steps are single broker, database and memory operations.

 Crashes are not one step: the broker may take back any unsettled delivery at any time
 (`Redeliver`), and a job may vanish from the memory of a Logic process at any time (`Forget`).
 A crash of a process is both, for all its deliveries; the loss of its broker connection is the
 first alone, after which its jobs go on with delivery tags that no longer mean anything.
 */
module Upload {
  import opened Messages

  type Tag = nat

  datatype Body = Malformed | Upload(p: Payload)

  /** How a publish with confirmation ends. Only `Confirmed` is success for the publisher; the
      broker may have stored the message in the other cases too. */
  datatype Reply =
    SendFailed(stored: bool) | NoConfirmation(stored: bool) | TimedOut(stored: bool) | Refused(stored: bool) | Confirmed

  predicate StoredByBroker(r: Reply) { r.Confirmed? || r.stored }

  /** Where a delivery is inside Logic. */
  datatype Stage = Received | Buffered | FallingBack | Pushing

  datatype Job = Job(body: Body, stage: Stage)

  datatype System = System(
    // the broker: the upload queue, its deliveries that are not settled, the dead-letter queue
    ready: multiset<Body>, unacked: map<Tag, Body>, dlq: multiset<Body>,
    // Logic: jobs in memory, the settlements sent so far, the jobs that were lost, and the
    // payloads whose push succeeded or was not needed
    nextTag: Tag, jobs: map<Tag, Job>, settled: seq<Tag>, forgotten: set<Tag>, pushed: set<Payload>,
    table: Table,
    // the Gateway: what the broker has stored, what it has confirmed, what got a server_ack,
    // and the MsgIds handed out
    published: set<Payload>, confirmed: set<Payload>, serverAcked: set<Payload>, usedIds: set<int>)

  const Start: System := System(multiset{}, map[], multiset{}, 0, map[], [], {}, {}, map[], {}, {}, {}, {})

  datatype Event =
    // Gateway and broker
    | Publish(p: Payload, reply: Reply)
    | PublishGarbage
    | ServerAck(p: Payload)
    | Deliver(body: Body)
    | Redeliver(tag: Tag)
    // Logic
    | RejectMalformed(tag: Tag)
    | ToBatch(tag: Tag)
    | HandleOther(tag: Tag, ok: bool, rows: map<int, Row>)
    | BatchInsert(tags: seq<Tag>, fault: Fault)
    | SingleInsert(tag: Tag, fault: Fault)
    | FinishPush(tag: Tag, ok: bool)
    | Forget(tag: Tag)

  /** Single chats, and unknown types, which are treated alike. */
  predicate Tracked(p: Payload) { p.kind.Single? || p.kind.Unknown? }

  predicate AtStage(s: System, tag: Tag, stage: Stage) {
    tag in s.jobs && s.jobs[tag].stage == stage && s.jobs[tag].body.Upload? && Tracked(s.jobs[tag].body.p)
  }

  function BatchOf(s: System, tags: seq<Tag>): (ps: seq<Payload>)
    requires forall i :: 0 <= i < |tags| ==> AtStage(s, tags[i], Buffered)
    ensures |ps| == |tags|
    ensures forall i :: 0 <= i < |tags| ==> AtStage(s, tags[i], Buffered) && ps[i] == s.jobs[tags[i]].body.p
  {
    if tags == [] then []
    else
      assert AtStage(s, tags[|tags| - 1], Buffered);
      BatchOf(s, tags[..|tags| - 1]) + [s.jobs[tags[|tags| - 1]].body.p]
  }

  predicate Enabled(s: System, e: Event) {
    match e
    case Publish(p, _) => p.msgId !in s.usedIds
    case PublishGarbage => true
    case ServerAck(p) => p in s.confirmed
    case Deliver(body) => body in s.ready
    case Redeliver(tag) => tag in s.unacked
    case RejectMalformed(tag) => tag in s.jobs && s.jobs[tag] == Job(Malformed, Received)
    case ToBatch(tag) => AtStage(s, tag, Received)
    case HandleOther(tag, ok, rows) =>
      && tag in s.jobs && s.jobs[tag].stage.Received?
      && s.jobs[tag].body.Upload? && !Tracked(s.jobs[tag].body.p)
      // group and AI chats add rows of their own, under the payload's MsgId or fresh ones
      && (forall id :: id in rows ==> id !in s.table && (id !in s.usedIds || id == s.jobs[tag].body.p.msgId))
    case BatchInsert(tags, _) => forall i :: 0 <= i < |tags| ==> AtStage(s, tags[i], Buffered)
    case SingleInsert(tag, _) => AtStage(s, tag, FallingBack)
    case FinishPush(tag, _) => AtStage(s, tag, Pushing)
    case Forget(tag) => tag in s.jobs
  }

  // ----- settling a delivery: the broker ignores a tag it no longer knows -----

  function Settled(s: System, tag: Tag): System {
    s.(jobs := s.jobs - {tag}, settled := s.settled + [tag], unacked := s.unacked - {tag})
  }

  function Ack(s: System, tag: Tag): System { Settled(s, tag) }

  function Requeue(s: System, tag: Tag): System {
    Settled(s, tag).(ready := if tag in s.unacked then s.ready + multiset{s.unacked[tag]} else s.ready)
  }

  function DeadLetter(s: System, tag: Tag): System {
    Settled(s, tag).(dlq := if tag in s.unacked then s.dlq + multiset{s.unacked[tag]} else s.dlq)
  }

  // ----- the steps -----

  function AtNext(s: System, tag: Tag, stage: Stage): System
    requires tag in s.jobs
  {
    s.(jobs := s.jobs[tag := s.jobs[tag].(stage := stage)])
  }

  function WithRows(s: System, rows: map<int, Row>): System {
    s.(table := s.table + rows, usedIds := s.usedIds + rows.Keys)
  }

  function AfterPublish(s: System, p: Payload, reply: Reply): System {
    var t := s.(usedIds := s.usedIds + {p.msgId},
                confirmed := if reply.Confirmed? then s.confirmed + {p} else s.confirmed);
    if StoredByBroker(reply) then t.(ready := s.ready + multiset{Upload(p)}, published := s.published + {p}) else t
  }

  function AfterBatch(s: System, tags: seq<Tag>, fault: Fault): System
    requires Enabled(s, BatchInsert(tags, fault))
  {
    var (t, r) := InsertBatch(s.table, BatchOf(s, tags), fault);
    s.(table := t,
       jobs := map tag | tag in s.jobs ::
                 if tag in tags then s.jobs[tag].(stage := if r.Ok? then Pushing else FallingBack) else s.jobs[tag])
  }

  function AfterSingle(s: System, tag: Tag, fault: Fault): System
    requires Enabled(s, SingleInsert(tag, fault))
  {
    var (t, r) := Insert(s.table, s.jobs[tag].body.p, fault);
    if r.Err? && !IsDuplicateKey(r.text)
    then DeadLetter(s.(table := t), tag)
    else AtNext(s.(table := t), tag, Pushing)
  }

  function Apply(s: System, e: Event): System
    requires Enabled(s, e)
  {
    match e
    case Publish(p, reply) => AfterPublish(s, p, reply)
    case PublishGarbage => s.(ready := s.ready + multiset{Malformed})
    case ServerAck(p) => s.(serverAcked := s.serverAcked + {p})
    case Deliver(body) =>
      s.(ready := s.ready - multiset{body}, unacked := s.unacked[s.nextTag := body],
         jobs := s.jobs[s.nextTag := Job(body, Received)], nextTag := s.nextTag + 1)
    case Redeliver(tag) =>
      s.(ready := s.ready + multiset{s.unacked[tag]}, unacked := s.unacked - {tag})
    case RejectMalformed(tag) => DeadLetter(s, tag)
    case ToBatch(tag) => AtNext(s, tag, Buffered)
    case HandleOther(tag, ok, rows) => if ok then Ack(WithRows(s, rows), tag) else Requeue(WithRows(s, rows), tag)
    case BatchInsert(tags, fault) => AfterBatch(s, tags, fault)
    case SingleInsert(tag, fault) => AfterSingle(s, tag, fault)
    case FinishPush(tag, ok) =>
      if ok then Ack(s.(pushed := s.pushed + {s.jobs[tag].body.p}), tag) else Requeue(s, tag)
    case Forget(tag) => s.(jobs := s.jobs - {tag}, forgotten := s.forgotten + {tag})
  }

  ghost predicate StepAt(tr: seq<System>, es: seq<Event>, i: nat)
    requires i < |es| < |tr|
  {
    Enabled(tr[i], es[i]) && tr[i + 1] == Apply(tr[i], es[i])
  }

  ghost predicate Run(tr: seq<System>, es: seq<Event>) {
    && |tr| == |es| + 1
    && tr[0] == Start
    && forall i :: 0 <= i < |es| ==> StepAt(tr, es, i)
  }

  /** The event reports no duplicate key for a row that is not there. */
  predicate HonestEvent(s: System, e: Event) {
    e.SingleInsert? && AtStage(s, e.tag, FallingBack) ==> Honest(s.table, s.jobs[e.tag].body.p, e.fault)
  }

  ghost predicate HonestUpTo(tr: seq<System>, es: seq<Event>, n: nat)
    requires n <= |es| < |tr|
  {
    forall j :: 0 <= j < n ==> HonestEvent(tr[j], es[j])
  }

  // ----- the invariant -----

  /** The payload is in the queue, in an unsettled delivery, or dead-lettered, or else it is both
      in the table and pushed. */
  ghost predicate Safe(s: System, p: Payload) {
    || Upload(p) in s.ready
    || (exists tag :: tag in s.unacked && s.unacked[tag] == Upload(p))
    || Upload(p) in s.dlq
    || (Stored(s.table, p) && p in s.pushed)
  }

  ghost predicate NoLoss(s: System) {
    && s.serverAcked <= s.confirmed <= s.published
    && forall p :: p in s.published && Tracked(p) ==> Safe(s, p)
  }

  ghost predicate KnownBody(s: System, b: Body) { b.Upload? ==> b.p in s.published }

  /** MsgIds identify payloads, and a row under a payload's MsgId is that payload's row. */
  ghost predicate IdentifiedIn(published: set<Payload>, usedIds: set<int>, table: Table) {
    && (forall p, q :: p in published && q in published && p.msgId == q.msgId ==> p == q)
    && (forall p :: p in published ==> p.msgId in usedIds)
    && (forall id :: id in table ==> id in usedIds)
    && (forall p :: p in published && Tracked(p) && p.msgId in table ==> Stored(table, p))
  }

  ghost predicate Identified(s: System) { IdentifiedIn(s.published, s.usedIds, s.table) }

  /** Only published payloads travel. */
  ghost predicate BodiesKnown(s: System) {
    && (forall b :: b in s.ready ==> KnownBody(s, b))
    && (forall tag :: tag in s.unacked ==> KnownBody(s, s.unacked[tag]))
    && (forall tag :: tag in s.jobs ==> KnownBody(s, s.jobs[tag].body))
  }

  /** A job has the body of its delivery. */
  predicate JobsMatch(s: System) {
    && (forall tag :: tag in s.unacked ==> tag < s.nextTag)
    && (forall tag :: tag in s.jobs ==> tag < s.nextTag)
    && (forall tag :: tag in s.jobs && tag in s.unacked ==> s.jobs[tag].body == s.unacked[tag])
  }

  ghost predicate Deliveries(s: System) { BodiesKnown(s) && JobsMatch(s) }

  /** What is about to be pushed, and then acked, is in the table. */
  predicate PushesStored(s: System) {
    forall tag :: tag in s.jobs && s.jobs[tag].stage.Pushing? ==>
      s.jobs[tag].body.Upload? && Stored(s.table, s.jobs[tag].body.p)
  }

  /** Each delivery so far is in exactly one of: in memory, settled (once), forgotten. */
  ghost predicate Partition(nextTag: Tag, live: set<Tag>, settled: seq<Tag>, forgotten: set<Tag>) {
    && (forall i, j :: 0 <= i < j < |settled| ==> settled[i] != settled[j])
    && (forall tag :: tag in settled ==> tag < nextTag && tag !in live && tag !in forgotten)
    && (forall tag :: tag in forgotten ==> tag < nextTag && tag !in live)
    && (forall tag :: tag in live ==> tag < nextTag)
    && (forall tag :: 0 <= tag < nextTag ==> tag in live || tag in settled || tag in forgotten)
  }

  ghost predicate SettledOnce(s: System) {
    Partition(s.nextTag, s.jobs.Keys, s.settled, s.forgotten)
  }

  ghost predicate Inv(s: System) {
    NoLoss(s) && Identified(s) && Deliveries(s) && PushesStored(s)
  }

  // ----- the steps keep each part -----

  /** What an insert can do to the table: keep every row and add rows of the given payloads. */
  ghost predicate Extends(t: Table, t': Table, ps: seq<Payload>) {
    && (forall id :: id in t ==> id in t' && t'[id] == t[id])
    && (forall id :: id in t' ==> id in t || exists p :: p in ps && p.msgId == id && t'[id] == RowOf(p))
  }

  lemma BatchExtends(t: Table, ps: seq<Payload>, f: Fault)
    ensures Extends(t, InsertBatch(t, ps, f).0, ps)
    ensures InsertBatch(t, ps, f).1.Ok? ==> forall p :: p in ps ==> p.msgId in InsertBatch(t, ps, f).0
  {
    InsertEachKeepsAndCovers(t, ps);
  }

  lemma SingleExtends(t: Table, p: Payload, f: Fault)
    ensures Extends(t, Insert(t, p, f).0, [p])
  {
    assert p in [p];
  }

  lemma ExtendingKeepsIdentified(s: System, t: Table, ps: seq<Payload>)
    requires Identified(s) && Extends(s.table, t, ps) && forall p :: p in ps ==> p in s.published
    ensures Identified(s.(table := t))
  {
  }

  lemma OtherRowsKeepIdentified(s: System, tag: Tag, ok: bool, rows: map<int, Row>)
    requires Identified(s) && BodiesKnown(s) && Enabled(s, HandleOther(tag, ok, rows))
    ensures Identified(WithRows(s, rows))
  {
    assert KnownBody(s, s.jobs[tag].body);
  }

  lemma BatchKeepsIdentified(s: System, tags: seq<Tag>, fault: Fault)
    requires Identified(s) && Deliveries(s) && Enabled(s, BatchInsert(tags, fault))
    ensures Identified(AfterBatch(s, tags, fault))
  {
    var ps := BatchOf(s, tags);
    BatchExtends(s.table, ps, fault);
    ExtendingKeepsIdentified(s, InsertBatch(s.table, ps, fault).0, ps);
  }

  lemma SingleKeepsIdentified(s: System, tag: Tag, fault: Fault)
    requires Identified(s) && Deliveries(s) && Enabled(s, SingleInsert(tag, fault))
    ensures Identified(AfterSingle(s, tag, fault))
  {
    var p := s.jobs[tag].body.p;
    SingleExtends(s.table, p, fault);
    ExtendingKeepsIdentified(s, Insert(s.table, p, fault).0, [p]);
  }

  lemma StepKeepsIdentified(s: System, e: Event)
    requires Identified(s) && Deliveries(s) && Enabled(s, e)
    ensures Identified(Apply(s, e))
  {
    match e
    case HandleOther(tag, ok, rows) => OtherRowsKeepIdentified(s, tag, ok, rows);
    case BatchInsert(tags, fault) => BatchKeepsIdentified(s, tags, fault);
    case SingleInsert(tag, fault) => SingleKeepsIdentified(s, tag, fault);
    case _ =>
  }

  lemma SettledKeepsBodiesKnown(s: System, tag: Tag)
    requires BodiesKnown(s)
    ensures BodiesKnown(Settled(s, tag))
  {
  }

  lemma SettlingKeepsBodiesKnown(s: System, tag: Tag)
    requires BodiesKnown(s)
    ensures BodiesKnown(Settled(s, tag)) && BodiesKnown(Requeue(s, tag)) && BodiesKnown(DeadLetter(s, tag))
  {
    SettledKeepsBodiesKnown(s, tag);
    var ready := Requeue(s, tag).ready;
    forall b | b in ready
      ensures KnownBody(s, b)
    {
      assert b in s.ready || b == s.unacked[tag];
    }
  }

  lemma StagingKeepsBodiesKnown(s: System, tag: Tag, stage: Stage)
    requires BodiesKnown(s) && tag in s.jobs
    ensures BodiesKnown(AtNext(s, tag, stage))
  {
  }

  lemma BatchKeepsBodiesKnown(s: System, tags: seq<Tag>, fault: Fault)
    requires BodiesKnown(s) && Enabled(s, BatchInsert(tags, fault))
    ensures BodiesKnown(AfterBatch(s, tags, fault))
  {
  }

  lemma SingleKeepsBodiesKnown(s: System, tag: Tag, fault: Fault)
    requires BodiesKnown(s) && Enabled(s, SingleInsert(tag, fault))
    ensures BodiesKnown(AfterSingle(s, tag, fault))
  {
    var (t, r) := Insert(s.table, s.jobs[tag].body.p, fault);
    if r.Err? && !IsDuplicateKey(r.text) {
      SettlingKeepsBodiesKnown(s.(table := t), tag);
    } else {
      StagingKeepsBodiesKnown(s.(table := t), tag, Pushing);
    }
  }

  lemma PublishKeepsBodiesKnown(s: System, p: Payload, reply: Reply)
    requires BodiesKnown(s)
    ensures BodiesKnown(AfterPublish(s, p, reply))
  {
    var t := AfterPublish(s, p, reply);
    forall b | b in t.ready
      ensures KnownBody(t, b)
    {
      assert b in s.ready || b == Upload(p);
    }
  }

  lemma MovingKeepsBodiesKnown(s: System, e: Event)
    requires BodiesKnown(s) && Enabled(s, e) && (e.PublishGarbage? || e.Deliver? || e.Redeliver?)
    ensures BodiesKnown(Apply(s, e))
  {
    var t := Apply(s, e);
    forall b | b in t.ready
      ensures KnownBody(t, b)
    {
      assert b in s.ready || b.Malformed? || (e.Redeliver? && b == s.unacked[e.tag]);
    }
  }

  lemma StepKeepsBodiesKnown(s: System, e: Event)
    requires BodiesKnown(s) && Enabled(s, e)
    ensures BodiesKnown(Apply(s, e))
  {
    match e
    case RejectMalformed(tag) => SettlingKeepsBodiesKnown(s, tag);
    case ToBatch(tag) => StagingKeepsBodiesKnown(s, tag, Buffered);
    case HandleOther(tag, ok, rows) => SettlingKeepsBodiesKnown(WithRows(s, rows), tag);
    case BatchInsert(tags, fault) => BatchKeepsBodiesKnown(s, tags, fault);
    case SingleInsert(tag, fault) => SingleKeepsBodiesKnown(s, tag, fault);
    case FinishPush(tag, ok) => SettlingKeepsBodiesKnown(s, tag);
    case Publish(p, reply) => PublishKeepsBodiesKnown(s, p, reply);
    case ServerAck(_) =>
    case Forget(_) =>
    case _ => MovingKeepsBodiesKnown(s, e);
  }

  lemma SettlingKeepsJobsMatch(s: System, tag: Tag)
    requires JobsMatch(s)
    ensures JobsMatch(Settled(s, tag))
  {
  }

  lemma SingleKeepsJobsMatch(s: System, tag: Tag, fault: Fault)
    requires JobsMatch(s) && Enabled(s, SingleInsert(tag, fault))
    ensures JobsMatch(AfterSingle(s, tag, fault))
  {
    SettlingKeepsJobsMatch(s, tag);
  }

  lemma StepKeepsJobsMatch(s: System, e: Event)
    requires JobsMatch(s) && Enabled(s, e)
    ensures JobsMatch(Apply(s, e))
  {
    match e
    case RejectMalformed(tag) => SettlingKeepsJobsMatch(s, tag);
    case HandleOther(tag, ok, rows) => SettlingKeepsJobsMatch(s, tag);
    case FinishPush(tag, ok) => SettlingKeepsJobsMatch(s, tag);
    case SingleInsert(tag, fault) => SingleKeepsJobsMatch(s, tag, fault);
    case _ =>
  }

  lemma BatchKeepsPushesStored(s: System, tags: seq<Tag>, fault: Fault)
    requires Identified(s) && Deliveries(s) && PushesStored(s) && Enabled(s, BatchInsert(tags, fault))
    ensures PushesStored(AfterBatch(s, tags, fault))
  {
    var ps := BatchOf(s, tags);
    BatchExtends(s.table, ps, fault);
    BatchKeepsIdentified(s, tags, fault);
    var t := AfterBatch(s, tags, fault);
    forall tag | tag in t.jobs && t.jobs[tag].stage.Pushing?
      ensures t.jobs[tag].body.Upload? && Stored(t.table, t.jobs[tag].body.p)
    {
      if tag in tags {
        var i :| 0 <= i < |tags| && tags[i] == tag;
        assert AtStage(s, tags[i], Buffered) && ps[i] in ps;
        assert KnownBody(s, s.jobs[tag].body);
      }
    }
  }

  /** A single insert keeps the pushes stored exactly when it does not fail with a text that reads
      as a duplicate key while the row is missing and stays missing. */
  lemma SingleKeepsPushesStoredExactlyWhenHonest(s: System, tag: Tag, fault: Fault)
    requires Identified(s) && Deliveries(s) && PushesStored(s) && Enabled(s, SingleInsert(tag, fault))
    ensures PushesStored(AfterSingle(s, tag, fault)) <==> Honest(s.table, s.jobs[tag].body.p, fault)
  {
    var p := s.jobs[tag].body.p;
    SingleExtends(s.table, p, fault);
    SingleKeepsIdentified(s, tag, fault);
    assert KnownBody(s, s.jobs[tag].body);
    var t := AfterSingle(s, tag, fault);
    var (_, r) := Insert(s.table, p, fault);
    if r.Err? && IsDuplicateKey(r.text) {
      assert t.jobs[tag].stage.Pushing? && t.jobs[tag].body.p == p;
    }
  }

  lemma SettlingKeepsPushesStored(s: System, tag: Tag)
    requires PushesStored(s)
    ensures PushesStored(Settled(s, tag)) && PushesStored(Requeue(s, tag)) && PushesStored(DeadLetter(s, tag))
  {
    assert forall other :: other in Settled(s, tag).jobs ==> other in s.jobs;
  }

  lemma TransportKeepsPushesStored(s: System, e: Event)
    requires PushesStored(s) && Enabled(s, e)
    requires e.Publish? || e.PublishGarbage? || e.ServerAck? || e.Deliver? || e.Redeliver? || e.Forget?
    ensures PushesStored(Apply(s, e))
  {
  }

  lemma StepKeepsPushesStored(s: System, e: Event)
    requires Identified(s) && Deliveries(s) && PushesStored(s) && Enabled(s, e) && HonestEvent(s, e)
    ensures PushesStored(Apply(s, e))
  {
    match e
    case BatchInsert(tags, fault) => BatchKeepsPushesStored(s, tags, fault);
    case SingleInsert(tag, fault) => SingleKeepsPushesStoredExactlyWhenHonest(s, tag, fault);
    case RejectMalformed(tag) => SettlingKeepsPushesStored(s, tag);
    case ToBatch(tag) =>
    case HandleOther(tag, ok, rows) => SettlingKeepsPushesStored(WithRows(s, rows), tag);
    case FinishPush(tag, ok) => SettlingKeepsPushesStored(s, tag);
    case _ => TransportKeepsPushesStored(s, e);
  }

  // ----- no payload gets lost -----

  /** Nothing leaves the table or the dead-letter queue, and a push is not taken back. */
  lemma StepOnlyAdds(s: System, e: Event)
    requires Enabled(s, e)
    ensures forall id :: id in s.table ==> id in Apply(s, e).table && Apply(s, e).table[id] == s.table[id]
    ensures forall b :: b in s.dlq ==> b in Apply(s, e).dlq
    ensures s.pushed <= Apply(s, e).pushed
  {
    match e
    case BatchInsert(tags, fault) => BatchExtends(s.table, BatchOf(s, tags), fault);
    case _ =>
  }

  lemma SingleKeepsDeliverySafe(s: System, job: Tag, fault: Fault, tag: Tag)
    requires JobsMatch(s) && Enabled(s, SingleInsert(job, fault)) && tag in s.unacked
    ensures var t := AfterSingle(s, job, fault);
            (tag in t.unacked && t.unacked[tag] == s.unacked[tag]) || s.unacked[tag] in t.dlq
  {
  }

  lemma PushKeepsDeliverySafe(s: System, job: Tag, ok: bool, tag: Tag)
    requires JobsMatch(s) && PushesStored(s) && Enabled(s, FinishPush(job, ok)) && tag in s.unacked
    ensures var t := Apply(s, FinishPush(job, ok));
            || (tag in t.unacked && t.unacked[tag] == s.unacked[tag])
            || s.unacked[tag] in t.ready
            || (s.unacked[tag].Upload? && Stored(t.table, s.unacked[tag].p) && s.unacked[tag].p in t.pushed)
  {
  }

  lemma OthersKeepDeliverySafe(s: System, e: Event, tag: Tag)
    requires JobsMatch(s) && Enabled(s, e) && !e.SingleInsert? && !e.FinishPush?
    requires tag in s.unacked && s.unacked[tag].Upload? && Tracked(s.unacked[tag].p)
    ensures var t := Apply(s, e);
            (tag in t.unacked && t.unacked[tag] == s.unacked[tag]) || s.unacked[tag] in t.ready || s.unacked[tag] in t.dlq
  {
  }

  /** A delivery that the step settles goes back to the queue, to the dead-letter queue, or is
      done with because its row is stored. */
  lemma StepKeepsDeliverySafe(s: System, e: Event, tag: Tag)
    requires Deliveries(s) && PushesStored(s) && Enabled(s, e)
    requires tag in s.unacked && s.unacked[tag].Upload? && Tracked(s.unacked[tag].p)
    ensures Safe(Apply(s, e), s.unacked[tag].p)
  {
    match e
    case SingleInsert(job, fault) => SingleKeepsDeliverySafe(s, job, fault, tag);
    case FinishPush(job, ok) => PushKeepsDeliverySafe(s, job, ok, tag);
    case _ => OthersKeepDeliverySafe(s, e, tag);
  }

  lemma StepKeepsSafe(s: System, e: Event, p: Payload)
    requires Deliveries(s) && PushesStored(s) && Enabled(s, e) && Tracked(p) && Safe(s, p)
    ensures Safe(Apply(s, e), p)
  {
    var t := Apply(s, e);
    StepOnlyAdds(s, e);
    if (Stored(s.table, p) && p in s.pushed) || Upload(p) in s.dlq {
    } else if Upload(p) in s.ready {
      if e.Deliver? && e.body == Upload(p) {
        assert t.unacked[s.nextTag] == Upload(p);
      } else {
        assert Upload(p) in t.ready;
      }
    } else {
      var tag :| tag in s.unacked && s.unacked[tag] == Upload(p);
      StepKeepsDeliverySafe(s, e, tag);
    }
  }

  lemma PublishKeepsConfirmed(s: System, p: Payload, reply: Reply)
    requires s.serverAcked <= s.confirmed <= s.published
    ensures var t := AfterPublish(s, p, reply);
            && t.serverAcked <= t.confirmed <= t.published
            && (p in t.published - s.published ==> Upload(p) in t.ready)
  {
  }

  lemma SettlingPublishesNothing(s: System, tag: Tag, fault: Fault)
    requires Enabled(s, SingleInsert(tag, fault))
    ensures AfterSingle(s, tag, fault).published == s.published && AfterSingle(s, tag, fault).confirmed == s.confirmed
  {
  }

  lemma OnlyPublishPublishes(s: System, e: Event)
    requires Enabled(s, e) && !e.Publish?
    ensures Apply(s, e).published == s.published && Apply(s, e).confirmed == s.confirmed
  {
    match e
    case SingleInsert(tag, fault) => SettlingPublishesNothing(s, tag, fault);
    case _ =>
  }

  lemma StepKeepsNoLoss(s: System, e: Event)
    requires NoLoss(s) && Deliveries(s) && PushesStored(s) && Enabled(s, e)
    ensures NoLoss(Apply(s, e))
  {
    var t := Apply(s, e);
    if e.Publish? {
      PublishKeepsConfirmed(s, e.p, e.reply);
    } else {
      OnlyPublishPublishes(s, e);
    }
    forall p | p in t.published && Tracked(p)
      ensures Safe(t, p)
    {
      if p in s.published {
        StepKeepsSafe(s, e, p);
      }
    }
  }

  // ----- every delivery is settled once -----

  lemma SettleOne(nextTag: Tag, live: set<Tag>, settled: seq<Tag>, forgotten: set<Tag>, tag: Tag)
    requires Partition(nextTag, live, settled, forgotten) && tag in live
    ensures Partition(nextTag, live - {tag}, settled + [tag], forgotten)
  {
  }

  /** The job stays in memory, or its delivery is settled and it ends. */
  ghost predicate SettlesOrKeeps(s: System, t: System, tag: Tag) {
    && t.nextTag == s.nextTag && t.forgotten == s.forgotten
    && ((t.settled == s.settled && t.jobs.Keys == s.jobs.Keys)
        || (t.settled == s.settled + [tag] && t.jobs.Keys == s.jobs.Keys - {tag}))
  }

  lemma SettlesOrKeepsKeepsOnce(s: System, t: System, tag: Tag)
    requires SettledOnce(s) && tag in s.jobs && SettlesOrKeeps(s, t, tag)
    ensures SettledOnce(t)
  {
    SettleOne(s.nextTag, s.jobs.Keys, s.settled, s.forgotten, tag);
  }

  lemma SingleSettlesOrKeeps(s: System, tag: Tag, fault: Fault)
    requires Enabled(s, SingleInsert(tag, fault))
    ensures SettlesOrKeeps(s, AfterSingle(s, tag, fault), tag)
  {
  }

  lemma SettlingSettlesOrKeeps(s: System, e: Event, tag: Tag)
    requires Enabled(s, e) && (e.RejectMalformed? || e.HandleOther? || e.FinishPush?) && e.tag == tag
    ensures SettlesOrKeeps(s, Apply(s, e), tag)
  {
  }

  /** The other steps, but for deliveries and lost jobs, leave the jobs where they are. */
  lemma OthersKeepTags(s: System, e: Event)
    requires Enabled(s, e)
    requires e.Publish? || e.PublishGarbage? || e.ServerAck? || e.Redeliver? || e.ToBatch? || e.BatchInsert?
    ensures var t := Apply(s, e);
            && t.nextTag == s.nextTag && t.jobs.Keys == s.jobs.Keys
            && t.settled == s.settled && t.forgotten == s.forgotten
  {
  }

  lemma DeliveryKeepsSettledOnce(s: System, body: Body)
    requires SettledOnce(s) && Enabled(s, Deliver(body))
    ensures SettledOnce(Apply(s, Deliver(body)))
  {
    assert Apply(s, Deliver(body)).jobs.Keys == s.jobs.Keys + {s.nextTag};
  }

  lemma ForgettingKeepsSettledOnce(s: System, tag: Tag)
    requires SettledOnce(s) && Enabled(s, Forget(tag))
    ensures SettledOnce(Apply(s, Forget(tag)))
  {
    assert Apply(s, Forget(tag)).jobs.Keys == s.jobs.Keys - {tag};
  }

  lemma StepKeepsSettledOnce(s: System, e: Event)
    requires SettledOnce(s) && Enabled(s, e)
    ensures SettledOnce(Apply(s, e))
  {
    match e
    case Deliver(body) => DeliveryKeepsSettledOnce(s, body);
    case Forget(tag) => ForgettingKeepsSettledOnce(s, tag);
    case SingleInsert(tag, fault) =>
      SingleSettlesOrKeeps(s, tag, fault);
      SettlesOrKeepsKeepsOnce(s, AfterSingle(s, tag, fault), tag);
    case RejectMalformed(tag) =>
      SettlingSettlesOrKeeps(s, e, tag);
      SettlesOrKeepsKeepsOnce(s, Apply(s, e), tag);
    case HandleOther(tag, ok, rows) =>
      SettlingSettlesOrKeeps(s, e, tag);
      SettlesOrKeepsKeepsOnce(s, Apply(s, e), tag);
    case FinishPush(tag, ok) =>
      SettlingSettlesOrKeeps(s, e, tag);
      SettlesOrKeepsKeepsOnce(s, Apply(s, e), tag);
    case _ => OthersKeepTags(s, e);
  }

  // ----- whole runs -----

  lemma StepKeepsInv(s: System, e: Event)
    requires Inv(s) && Enabled(s, e) && HonestEvent(s, e)
    ensures Inv(Apply(s, e))
  {
    StepKeepsNoLoss(s, e);
    StepKeepsIdentified(s, e);
    StepKeepsBodiesKnown(s, e);
    StepKeepsJobsMatch(s, e);
    StepKeepsPushesStored(s, e);
  }

  lemma {:induction false} RunKeepsInv(tr: seq<System>, es: seq<Event>, i: nat)
    requires Run(tr, es) && i < |tr|
    requires HonestUpTo(tr, es, i)
    ensures Inv(tr[i])
  {
    if i > 0 {
      RunKeepsInv(tr, es, i - 1);
      assert StepAt(tr, es, i - 1);
      StepKeepsInv(tr[i - 1], es[i - 1]);
    }
  }

  /** No loss: in every run in which duplicate-key reports are true, whatever crashes, whatever
      insert or publish fails, a payload whose server_ack was sent is in the upload queue, in an
      unsettled delivery or in the dead-letter queue, or else it is in the table under its MsgId
      and its push has been published or was not needed. A row under its MsgId is its own, field by
      field. */
  lemma ServerAckedIsNeverLost(tr: seq<System>, es: seq<Event>, i: nat, p: Payload)
    requires Run(tr, es) && i < |tr| && p in tr[i].serverAcked && !p.kind.Group? && !p.kind.AI?
    requires HonestUpTo(tr, es, i)
    ensures Safe(tr[i], p)
    ensures p.msgId in tr[i].table ==>
              var row := tr[i].table[p.msgId];
              && row.seqId == p.seqId && row.sender == p.sender && row.receiver == p.receiver
              && row.groupId == p.groupId && row.content == p.content
  {
    RunKeepsInv(tr, es, i);
  }

  /** Once stored, for ever stored: no later step of any run changes the row. */
  lemma {:induction false} StoredStays(tr: seq<System>, es: seq<Event>, i: nat, j: nat, id: int)
    requires Run(tr, es) && i <= j < |tr| && id in tr[i].table
    ensures id in tr[j].table && tr[j].table[id] == tr[i].table[id]
  {
    if i < j {
      StoredStays(tr, es, i, j - 1, id);
      assert StepAt(tr, es, j - 1);
      StepOnlyAdds(tr[j - 1], es[j - 1]);
    }
  }

  /** Every delivery is settled at most once, and exactly once when its job is neither still
      running nor lost: in every run, with no assumption on errors. */
  lemma {:induction false} EveryDeliverySettledOnce(tr: seq<System>, es: seq<Event>, i: nat)
    requires Run(tr, es) && i < |tr|
    ensures SettledOnce(tr[i])
  {
    if i > 0 {
      EveryDeliverySettledOnce(tr, es, i - 1);
      assert StepAt(tr, es, i - 1);
      StepKeepsSettledOnce(tr[i - 1], es[i - 1]);
    }
  }

  lemma ExtendRun(tr: seq<System>, es: seq<Event>, e: Event) returns (tr': seq<System>, es': seq<Event>)
    requires Run(tr, es) && Enabled(tr[|es|], e)
    ensures Run(tr', es') && es' == es + [e] && tr' == tr + [Apply(tr[|es|], e)]
  {
    tr', es' := tr + [Apply(tr[|es|], e)], es + [e];
    forall i | 0 <= i < |es'|
      ensures StepAt(tr', es', i)
    {
      assert i < |es| ==> StepAt(tr, es, i);
    }
  }

  ghost predicate HonestRun(tr: seq<System>, es: seq<Event>) { Run(tr, es) && HonestUpTo(tr, es, |es|) }

  lemma ExtendHonestly(tr: seq<System>, es: seq<Event>, e: Event) returns (tr': seq<System>, es': seq<Event>)
    requires HonestRun(tr, es) && Enabled(tr[|es|], e) && HonestEvent(tr[|es|], e)
    ensures HonestRun(tr', es') && es' == es + [e] && tr'[|es'|] == Apply(tr[|es|], e)
  {
    tr', es' := ExtendRun(tr, es, e);
    assert forall j :: 0 <= j < |es| ==> tr'[j] == tr[j] && es'[j] == es[j];
  }

  /** One job for one unsettled delivery, with the given table. */
  ghost predicate OneJob(s: System, p: Payload, tag: Tag, stage: Stage, table: Table) {
    && s.ready == multiset{} && s.dlq == multiset{} && s.unacked == map[tag := Upload(p)]
    && s.jobs == map[tag := Job(Upload(p), stage)] && s.table == table && s.nextTag == tag + 1
    && p in s.serverAcked
  }

  lemma UpToDelivery(p: Payload) returns (tr: seq<System>, es: seq<Event>)
    ensures HonestRun(tr, es) && OneJob(tr[|es|], p, 0, Received, map[])
    ensures es == [Publish(p, Confirmed), ServerAck(p), Deliver(Upload(p))]
  {
    tr, es := [Start], [];
    tr, es := ExtendHonestly(tr, es, Publish(p, Confirmed));
    tr, es := ExtendHonestly(tr, es, ServerAck(p));
    tr, es := ExtendHonestly(tr, es, Deliver(Upload(p)));
  }

  lemma FailedBatchFallsBack(s: System, p: Payload, down: Fault)
    requires OneJob(s, p, 0, Buffered, map[]) && Tracked(p) && down.Fault? && !down.committed
    ensures Enabled(s, BatchInsert([0], down)) && OneJob(Apply(s, BatchInsert([0], down)), p, 0, FallingBack, map[])
  {
    assert Apply(s, BatchInsert([0], down)).jobs == map[0 := Job(Upload(p), FallingBack)];
  }

  lemma MisreadSingleIsPushed(s: System, p: Payload, text: string)
    requires OneJob(s, p, 0, FallingBack, map[]) && Tracked(p) && IsDuplicateKey(text)
    ensures Enabled(s, SingleInsert(0, Fault(text, false)))
    ensures OneJob(AfterSingle(s, 0, Fault(text, false)), p, 0, Pushing, map[])
  {
  }

  /** An error text that merely looks like a duplicate key loses a message whose server_ack was
      sent: the insert fails, the delivery is acked, and no row exists. */
  lemma MisreadErrorLosesMessage(p: Payload, text: string) returns (tr: seq<System>, es: seq<Event>)
    requires Tracked(p) && IsDuplicateKey(text)
    ensures Run(tr, es) && p in tr[|es|].serverAcked && FaultsFrom(es, iset{text})
    ensures !Safe(tr[|es|], p)
  {
    var down := Fault(text, false);
    tr, es := UpToDelivery(p);
    tr, es := ExtendRun(tr, es, ToBatch(0));
    FailedBatchFallsBack(tr[|es|], p, down);
    tr, es := ExtendRun(tr, es, BatchInsert([0], down));
    MisreadSingleIsPushed(tr[|es|], p, text);
    tr, es := ExtendRun(tr, es, SingleInsert(0, down));
    tr, es := ExtendRun(tr, es, FinishPush(0, true));
  }

  // ----- which error texts the database may produce -----

  /** The texts of the failures in a run. Duplicate keys that the database itself finds are not
      failures here: they are reported truly. */
  ghost predicate FaultsFrom(es: seq<Event>, texts: iset<string>) {
    forall j :: 0 <= j < |es| && (es[j].BatchInsert? || es[j].SingleInsert?) && es[j].fault.Fault? ==>
      es[j].fault.text in texts
  }

  /** In every run on a database with these error texts, every payload with a server_ack is safe. */
  ghost predicate NeverLoses(texts: iset<string>) {
    forall tr: seq<System>, es: seq<Event>, p ::
      Run(tr, es) && FaultsFrom(es, texts) && p in tr[|es|].serverAcked && !p.kind.Group? && !p.kind.AI? ==>
        Safe(tr[|es|], p)
  }

  lemma ClearTextsAreHonest(tr: seq<System>, es: seq<Event>, texts: iset<string>)
    requires Run(tr, es) && FaultsFrom(es, texts) && forall text :: text in texts ==> !IsDuplicateKey(text)
    ensures HonestRun(tr, es)
  {
  }

  /** The pipeline never loses a message after its server_ack if and only if no error text of the
      database, other than its duplicate-key report, contains what isDuplicateKey looks for. */
  lemma NeverLosesExactlyWhenTextsAreClear(texts: iset<string>)
    ensures NeverLoses(texts) <==> forall text :: text in texts ==> !IsDuplicateKey(text)
  {
    if forall text :: text in texts ==> !IsDuplicateKey(text) {
      forall tr: seq<System>, es: seq<Event>, p |
        Run(tr, es) && FaultsFrom(es, texts) && p in tr[|es|].serverAcked && !p.kind.Group? && !p.kind.AI?
        ensures Safe(tr[|es|], p)
      {
        ClearTextsAreHonest(tr, es, texts);
        ServerAckedIsNeverLost(tr, es, |es|, p);
      }
    } else {
      var text :| text in texts && IsDuplicateKey(text);
      var p := Payload(1, 1, Single, 0, 1, 2, "");
      var tr, es := MisreadErrorLosesMessage(p, text);
      assert FaultsFrom(es, texts) && Tracked(p) && p in tr[|es|].serverAcked && !Safe(tr[|es|], p);
    }
  }

  // ----- a run that recovers from a crash -----

  /** A batch of one payload changes the stage of its job by the result of the insert. */
  lemma BatchOfOne(s: System, p: Payload, tag: Tag, table: Table, after: Table, r: Result)
    requires OneJob(s, p, tag, Buffered, table) && Tracked(p) && InsertBatch(table, [p], NoFault) == (after, r)
    ensures Enabled(s, BatchInsert([tag], NoFault))
    ensures OneJob(AfterBatch(s, [tag], NoFault), p, tag, if r.Ok? then Pushing else FallingBack, after)
  {
    assert AtStage(s, tag, Buffered);
    assert BatchOf(s, [tag]) == [p];
    var t := AfterBatch(s, [tag], NoFault);
    assert t.jobs == map[tag := Job(Upload(p), if r.Ok? then Pushing else FallingBack)];
  }

  lemma FirstDeliveryStores(p: Payload) returns (tr: seq<System>, es: seq<Event>)
    requires Tracked(p)
    ensures HonestRun(tr, es) && OneJob(tr[|es|], p, 0, Pushing, map[p.msgId := RowOf(p)])
  {
    tr, es := UpToDelivery(p);
    tr, es := ExtendHonestly(tr, es, ToBatch(0));
    BatchOfOneIsSingle(map[], p);
    BatchOfOne(tr[|es|], p, 0, map[], map[p.msgId := RowOf(p)], Ok);
    tr, es := ExtendHonestly(tr, es, BatchInsert([0], NoFault));
  }

  lemma CrashAndRedeliver(tr0: seq<System>, es0: seq<Event>, p: Payload, table: Table)
    returns (tr: seq<System>, es: seq<Event>)
    requires HonestRun(tr0, es0) && OneJob(tr0[|es0|], p, 0, Pushing, table)
    ensures HonestRun(tr, es) && OneJob(tr[|es|], p, 1, Received, table)
  {
    tr, es := ExtendHonestly(tr0, es0, Forget(0));
    tr, es := ExtendHonestly(tr, es, Redeliver(0));
    tr, es := ExtendHonestly(tr, es, Deliver(Upload(p)));
  }

  lemma RedeliveryFallsBack(tr0: seq<System>, es0: seq<Event>, p: Payload, table: Table)
    returns (tr: seq<System>, es: seq<Event>)
    requires HonestRun(tr0, es0) && OneJob(tr0[|es0|], p, 1, Received, table) && Tracked(p) && p.msgId in table
    ensures HonestRun(tr, es) && OneJob(tr[|es|], p, 1, FallingBack, table)
  {
    tr, es := ExtendHonestly(tr0, es0, ToBatch(1));
    BatchOfOneIsSingle(table, p);
    BatchOfOne(tr[|es|], p, 1, table, table, Err(DUPLICATE));
    tr, es := ExtendHonestly(tr, es, BatchInsert([1], NoFault));
  }

  /** The process dies between the insert and the ack: the redelivered message is recognised as
      stored, is pushed and acked, and the table holds its one row. */
  lemma CrashAfterInsertRecovers(p: Payload) returns (tr: seq<System>, es: seq<Event>)
    requires !p.kind.Group? && !p.kind.AI?
    ensures HonestRun(tr, es) && p in tr[|es|].serverAcked && p in tr[|es|].pushed
    ensures tr[|es|].table == map[p.msgId := RowOf(p)]
    ensures tr[|es|].ready == multiset{} && tr[|es|].unacked == map[] && tr[|es|].dlq == multiset{}
  {
    tr, es := FirstDeliveryStores(p);
    tr, es := CrashAndRedeliver(tr, es, p, map[p.msgId := RowOf(p)]);
    tr, es := RedeliveryFallsBack(tr, es, p, map[p.msgId := RowOf(p)]);
    DuplicateTextIsRecognised();
    tr, es := ExtendHonestly(tr, es, SingleInsert(1, NoFault));
    tr, es := ExtendHonestly(tr, es, FinishPush(1, true));
  }

  /** Such a text: the database does not answer on port 10620. */
  lemma RefusedConnectionReadsAsDuplicate()
    ensures IsDuplicateKey("dial tcp 127.0.0.1:" + "1062" + "0: connect: connection refused")
  {
    ContainsInTheMiddle("dial tcp 127.0.0.1:", "1062", "0: connect: connection refused");
  }
}
