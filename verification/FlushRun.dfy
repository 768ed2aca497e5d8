/**
 A worker's flush inside the upload pipeline: the specification of the flush (BatchFlush) is a
 run of the pipeline's transition system (Upload).
 */
module FlushRun {
  import opened Messages
  import opened BatchFlush
  import Upload

  /** The items are buffered jobs of the system, each once. */
  ghost predicate Waiting(s: Upload.System, items: seq<Item>, stage: Upload.Stage) {
    && (forall i :: 0 <= i < |items| ==>
          Upload.AtStage(s, items[i].tag, stage) && s.jobs[items[i].tag].body.p == items[i].p)
    && (forall i, j :: 0 <= i < j < |items| ==> items[i].tag != items[j].tag)
  }

  function Tags(items: seq<Item>): (tags: seq<nat>)
    ensures |tags| == |items| && forall i :: 0 <= i < |items| ==> tags[i] == items[i].tag
  {
    if items == [] then [] else Tags(items[..|items| - 1]) + [items[|items| - 1].tag]
  }

  /** The events lead from one state to the other by steps of the given kind. */
  ghost predicate Leads<S(!new), E>(next: (S, E, S) -> bool, s: S, es: seq<E>, t: S) {
    if es == [] then s == t
    else
      var n := |es| - 1;
      exists m :: Leads(next, s, es[..n], m) && next(m, es[n], t)
  }

  lemma LeadsOneMore<S(!new), E>(next: (S, E, S) -> bool, s: S, es: seq<E>, m: S, e: E, t: S)
    requires Leads(next, s, es, m) && next(m, e, t)
    ensures Leads(next, s, es + [e], t)
  {
    assert (es + [e])[..|es|] == es;
  }

  lemma {:induction false} LeadsOn<S(!new), E>(next: (S, E, S) -> bool, s: S, e: E, m: S, es: seq<E>, t: S)
    requires next(s, e, m) && Leads(next, m, es, t)
    ensures Leads(next, s, [e] + es, t)
  {
    if es == [] {
      LeadsOneMore(next, s, [], s, e, t);
      assert [e] + [] == [] + [e];
    } else {
      var n := |es| - 1;
      var last :| Leads(next, m, es[..n], last) && next(last, es[n], t);
      LeadsOn(next, s, e, m, es[..n], last);
      LeadsOneMore(next, s, [e] + es[..n], last, es[n], t);
      assert ([e] + es[..n]) + [es[n]] == [e] + es;
    }
  }

  predicate Next(s: Upload.System, e: Upload.Event, t: Upload.System) {
    Upload.Enabled(s, e) && t == Upload.Apply(s, e)
  }

  function Singles(items: seq<Item>, faults: seq<Fault>): (es: seq<Upload.Event>)
    requires |faults| == |items|
    ensures |es| == |items|
  {
    if items == [] then []
    else
      var n := |items| - 1;
      Singles(items[..n], faults[..n]) + [Upload.SingleInsert(items[n].tag, faults[n])]
  }

  /** One batch insert, and a single insert for every item if that fails. */
  function FlushEvents(t: Table, items: seq<Item>, batchFault: Fault, faults: seq<Fault>): seq<Upload.Event>
    requires |faults| == |items|
  {
    if items == [] then []
    else
      [Upload.BatchInsert(Tags(items), batchFault)]
      + if InsertBatch(t, Payloads(items), batchFault).1.Ok? then [] else Singles(items, faults)
  }

  /** The bodies that rejecting the items sends to the dead-letter queue. */
  function DeadBodies(unacked: map<nat, Upload.Body>, dead: seq<Item>): multiset<Upload.Body> {
    if dead == [] then multiset{}
    else
      var tag := dead[|dead| - 1].tag;
      DeadBodies(unacked, dead[..|dead| - 1]) + if tag in unacked then multiset{unacked[tag]} else multiset{}
  }

  function JobsAfter(jobs: map<nat, Upload.Job>, pushed: seq<Item>, dead: seq<Item>): map<nat, Upload.Job> {
    map tag | tag in jobs && tag !in Tags(dead) ::
      if tag in Tags(pushed) then jobs[tag].(stage := Upload.Pushing) else jobs[tag]
  }

  function Without(unacked: map<nat, Upload.Body>, dead: seq<Item>): map<nat, Upload.Body> {
    map tag | tag in unacked && tag !in Tags(dead) :: unacked[tag]
  }

  /** What a flush with the given outcome makes of the system: its table, its pushes as jobs that
      push, and its rejections as settled deliveries in the dead-letter queue. Nothing else. */
  function WithOutcome(s: Upload.System, o: Outcome): Upload.System {
    s.(table := o.table,
       jobs := JobsAfter(s.jobs, Items(o.pushes), o.dead),
       settled := s.settled + Tags(o.dead),
       unacked := Without(s.unacked, o.dead),
       dlq := s.dlq + DeadBodies(s.unacked, o.dead))
  }

  lemma TagsOneMore(items: seq<Item>, it: Item)
    ensures Tags(items + [it]) == Tags(items) + [it.tag]
  {
  }

  lemma DeadBodiesOneMore(unacked: map<nat, Upload.Body>, dead: seq<Item>, it: Item)
    ensures DeadBodies(unacked, dead + [it])
         == DeadBodies(unacked, dead) + if it.tag in unacked then multiset{unacked[it.tag]} else multiset{}
  {
    assert (dead + [it])[..|dead|] == dead;
  }

  /** The tag of an item that has not been handled is in neither list. */
  lemma FreshTag(items: seq<Item>, pushed: seq<Item>, dead: seq<Item>, it: Item)
    requires multiset(pushed) + multiset(dead) == multiset(items)
    requires forall i :: 0 <= i < |items| ==> items[i].tag != it.tag
    ensures it.tag !in Tags(pushed) && it.tag !in Tags(dead)
  {
    forall x | x in multiset(pushed) + multiset(dead)
      ensures x.tag != it.tag
    {
      assert x in items;
    }
    assert forall i :: 0 <= i < |pushed| ==> pushed[i] in multiset(pushed) + multiset(dead);
    assert forall i :: 0 <= i < |dead| ==> dead[i] in multiset(pushed) + multiset(dead);
  }

  lemma JobPushed(jobs: map<nat, Upload.Job>, pushed: seq<Item>, dead: seq<Item>, it: Item)
    requires it.tag in jobs && it.tag !in Tags(dead)
    ensures JobsAfter(jobs, pushed, dead)[it.tag := jobs[it.tag].(stage := Upload.Pushing)]
         == JobsAfter(jobs, pushed + [it], dead)
  {
    TagsOneMore(pushed, it);
  }

  lemma JobRejected(jobs: map<nat, Upload.Job>, pushed: seq<Item>, dead: seq<Item>, it: Item)
    ensures JobsAfter(jobs, pushed, dead) - {it.tag} == JobsAfter(jobs, pushed, dead + [it])
  {
    TagsOneMore(dead, it);
  }

  lemma DeliveryRejected(unacked: map<nat, Upload.Body>, dead: seq<Item>, it: Item)
    requires it.tag !in Tags(dead)
    ensures Without(unacked, dead) - {it.tag} == Without(unacked, dead + [it])
    ensures it.tag in unacked <==> it.tag in Without(unacked, dead)
  {
    TagsOneMore(dead, it);
  }

  /** What rejecting one more delivery adds to the dead-letter queue. */
  lemma LetterAdded(s: Upload.System, o: Outcome, it: Item)
    requires it.tag !in Tags(o.dead)
    ensures Upload.DeadLetter(WithOutcome(s, o), it.tag).dlq == s.dlq + DeadBodies(s.unacked, o.dead + [it])
  {
    DeadBodiesOneMore(s.unacked, o.dead, it);
    DeliveryRejected(s.unacked, o.dead, it);
  }

  lemma OneHandled(s: Upload.System, o: Outcome, it: Item)
    requires it.tag in s.jobs && it.tag !in Tags(Items(o.pushes)) && it.tag !in Tags(o.dead)
    ensures it.tag in WithOutcome(s, o).jobs && WithOutcome(s, o).jobs[it.tag] == s.jobs[it.tag]
  {
  }

  lemma OnePushed(s: Upload.System, o: Outcome, it: Item, push: Push, table: Table)
    requires it.tag in s.jobs && it.tag !in Tags(Items(o.pushes)) && it.tag !in Tags(o.dead) && push.item == it
    ensures it.tag in WithOutcome(s, o).jobs
    ensures Upload.AtNext(WithOutcome(s, o).(table := table), it.tag, Upload.Pushing)
         == WithOutcome(s, Outcome(table, o.pushes + [push], o.dead))
  {
    OneHandled(s, o, it);
    ItemsAppend(o.pushes, push);
    JobPushed(s.jobs, Items(o.pushes), o.dead, it);
  }

  lemma OneRejected(s: Upload.System, o: Outcome, it: Item, table: Table)
    requires it.tag !in Tags(o.dead)
    ensures Upload.DeadLetter(WithOutcome(s, o).(table := table), it.tag)
         == WithOutcome(s, Outcome(table, o.pushes, o.dead + [it]))
  {
    JobRejected(s.jobs, Items(o.pushes), o.dead, it);
    TagsOneMore(o.dead, it);
    LetterAdded(s, o, it);
    DeliveryRejected(s.unacked, o.dead, it);
    assert s.settled + (Tags(o.dead) + [it.tag]) == (s.settled + Tags(o.dead)) + [it.tag];
  }

  /** One turn of the fallback loop is one single insert of the system. */
  lemma OneSingle(s: Upload.System, items: seq<Item>, faults: seq<Fault>, routes: map<int, string>, lookupOk: bool,
                  o: Outcome)
    requires |faults| == |items| > 0 && Waiting(s, items, Upload.FallingBack)
    requires o == Fallback(s.table, items[..|items| - 1], faults[..|items| - 1], routes, lookupOk)
    ensures var it, fault := items[|items| - 1], faults[|items| - 1];
            var m := WithOutcome(s, o);
            && Upload.Enabled(m, Upload.SingleInsert(it.tag, fault))
            && Upload.AfterSingle(m, it.tag, fault) == WithOutcome(s, Fallback(s.table, items, faults, routes, lookupOk))
  {
    var n := |items| - 1;
    var it, fault := items[n], faults[n];
    assert Upload.AtStage(s, it.tag, Upload.FallingBack);
    FallbackSettlesEachItemOnce(s.table, items[..n], faults[..n], routes, lookupOk);
    FreshTag(items[..n], Items(o.pushes), o.dead, it);
    OneHandled(s, o, it);
    var (table, r) := Insert(o.table, it.p, fault);
    if r.Err? && !IsDuplicateKey(r.text) {
      OneRejected(s, o, it, table);
    } else {
      OnePushed(s, o, it, PushOf(routes, lookupOk, it), table);
    }
  }

  lemma {:induction false} FallbackIsRun(s: Upload.System, items: seq<Item>, faults: seq<Fault>,
                                         routes: map<int, string>, lookupOk: bool)
    requires |faults| == |items| && Waiting(s, items, Upload.FallingBack)
    ensures Leads(Next, s, Singles(items, faults), WithOutcome(s, Fallback(s.table, items, faults, routes, lookupOk)))
  {
    if items == [] {
      NothingDone(s);
    } else {
      var n := |items| - 1;
      var o := Fallback(s.table, items[..n], faults[..n], routes, lookupOk);
      FallbackIsRun(s, items[..n], faults[..n], routes, lookupOk);
      OneSingle(s, items, faults, routes, lookupOk, o);
      LeadsOneMore(Next, s, Singles(items[..n], faults[..n]), WithOutcome(s, o),
                   Upload.SingleInsert(items[n].tag, faults[n]),
                   WithOutcome(s, Fallback(s.table, items, faults, routes, lookupOk)));
    }
  }

  lemma NothingDone(s: Upload.System)
    ensures WithOutcome(s, Outcome(s.table, [], [])) == s
  {
    assert WithOutcome(s, Outcome(s.table, [], [])).jobs == s.jobs;
    assert WithOutcome(s, Outcome(s.table, [], [])).unacked == s.unacked;
  }

  lemma BatchOfItems(s: Upload.System, items: seq<Item>)
    requires Waiting(s, items, Upload.Buffered)
    ensures forall i :: 0 <= i < |items| ==> Upload.AtStage(s, Tags(items)[i], Upload.Buffered)
    ensures Upload.BatchOf(s, Tags(items)) == Payloads(items)
  {
  }

  /** The jobs of the items at another stage. */
  function Staged(s: Upload.System, items: seq<Item>, stage: Upload.Stage, table: Table): Upload.System {
    s.(table := table,
       jobs := map tag | tag in s.jobs :: if tag in Tags(items) then s.jobs[tag].(stage := stage) else s.jobs[tag])
  }

  lemma BatchStages(s: Upload.System, items: seq<Item>, fault: Fault)
    requires Waiting(s, items, Upload.Buffered)
    ensures Upload.Enabled(s, Upload.BatchInsert(Tags(items), fault))
    ensures var (table, r) := InsertBatch(s.table, Payloads(items), fault);
            Upload.AfterBatch(s, Tags(items), fault)
            == Staged(s, items, if r.Ok? then Upload.Pushing else Upload.FallingBack, table)
  {
    BatchOfItems(s, items);
  }

  lemma StagedAllPushed(s: Upload.System, items: seq<Item>, routes: map<int, string>, lookupOk: bool, table: Table)
    ensures Staged(s, items, Upload.Pushing, table) == WithOutcome(s, Outcome(table, PushAll(items, routes, lookupOk), []))
  {
    var t := WithOutcome(s, Outcome(table, PushAll(items, routes, lookupOk), []));
    PushAllItems(items, routes, lookupOk);
    assert t.jobs == Staged(s, items, Upload.Pushing, table).jobs;
    assert t.unacked == s.unacked;
  }

  lemma StagedWaits(s: Upload.System, items: seq<Item>, table: Table)
    requires Waiting(s, items, Upload.Buffered)
    ensures Waiting(Staged(s, items, Upload.FallingBack, table), items, Upload.FallingBack)
  {
    forall i | 0 <= i < |items|
      ensures Upload.AtStage(Staged(s, items, Upload.FallingBack, table), items[i].tag, Upload.FallingBack)
    {
      assert Tags(items)[i] == items[i].tag && Upload.AtStage(s, items[i].tag, Upload.Buffered);
    }
  }

  /** Every item ends among the pushes or the rejections, so its stage in between leaves no trace. */
  lemma StagesForgotten(s: Upload.System, items: seq<Item>, table: Table, o: Outcome)
    requires multiset(Items(o.pushes)) + multiset(o.dead) == multiset(items)
    ensures WithOutcome(Staged(s, items, Upload.FallingBack, table), o) == WithOutcome(s, o)
  {
    forall tag | tag in Tags(items)
      ensures tag in Tags(Items(o.pushes)) || tag in Tags(o.dead)
    {
      var i :| 0 <= i < |items| && Tags(items)[i] == tag;
      assert items[i] in multiset(Items(o.pushes)) + multiset(o.dead);
      if items[i] in Items(o.pushes) {
        TagListed(Items(o.pushes), items[i]);
      } else {
        TagListed(o.dead, items[i]);
      }
    }
    assert JobsAfter(Staged(s, items, Upload.FallingBack, table).jobs, Items(o.pushes), o.dead)
        == JobsAfter(s.jobs, Items(o.pushes), o.dead);
  }

  lemma TagListed(items: seq<Item>, it: Item)
    requires it in items
    ensures it.tag in Tags(items)
  {
    var i :| 0 <= i < |items| && items[i] == it;
    assert Tags(items)[i] == it.tag;
  }

  /** The flush of buffered jobs, under any failures, is one batch insert of the pipeline, followed
      by one single insert for each item if it fails. It ends with the table, the pushes and the
      dead letters of the flush's specification, and changes nothing else. */
  lemma FlushIsRun(s: Upload.System, items: seq<Item>, routes: map<int, string>, lookupOk: bool,
                   batchFault: Fault, faults: seq<Fault>)
    requires |faults| == |items| && Waiting(s, items, Upload.Buffered)
    ensures Leads(Next, s, FlushEvents(s.table, items, batchFault, faults),
                  WithOutcome(s, Flushed(s.table, items, routes, lookupOk, batchFault, faults)))
  {
    if items == [] {
      NothingDone(s);
    } else {
      var e := Upload.BatchInsert(Tags(items), batchFault);
      var (table, r) := InsertBatch(s.table, Payloads(items), batchFault);
      BatchStages(s, items, batchFault);
      if r.Ok? {
        StagedAllPushed(s, items, routes, lookupOk, table);
        LeadsOn(Next, s, e, Upload.Apply(s, e), [], Upload.Apply(s, e));
      } else {
        var s1 := Staged(s, items, Upload.FallingBack, table);
        var o := Fallback(table, items, faults, routes, lookupOk);
        StagedWaits(s, items, table);
        FallbackIsRun(s1, items, faults, routes, lookupOk);
        FallbackSettlesEachItemOnce(table, items, faults, routes, lookupOk);
        StagesForgotten(s, items, table, o);
        LeadsOn(Next, s, e, s1, Singles(items, faults), WithOutcome(s, o));
      }
    }
  }
}
