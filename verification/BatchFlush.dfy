/**
 The flush of a batch worker (apps/logic/service/upload_consumer.go, batchInsertWorker): one
 deduplicated route lookup, one INSERT for the batch, and one INSERT per item if that fails.
 */
module BatchFlush {
  import opened Messages

  const BATCH_SIZE := 50

  /** A delivery that waits in a worker's buffer. */
  datatype Item = Item(tag: nat, p: Payload)

  /** A goroutine that pushes the item to the address and then settles its delivery. */
  datatype Push = Push(item: Item, addr: string)

  /** The gateway address of a user in Redis: empty when there is none or the lookup failed. */
  function Route(routes: map<int, string>, lookupOk: bool, user: int): string {
    if lookupOk && user in routes then routes[user] else ""
  }

  function Payloads(items: seq<Item>): (ps: seq<Payload>)
    ensures |ps| == |items| && forall i :: 0 <= i < |items| ==> ps[i] == items[i].p
  {
    if items == [] then [] else Payloads(items[..|items| - 1]) + [items[|items| - 1].p]
  }

  datatype Outcome = Outcome(table: Table, pushes: seq<Push>, dead: seq<Item>)

  function PushOf(routes: map<int, string>, lookupOk: bool, it: Item): Push {
    Push(it, Route(routes, lookupOk, it.p.receiver))
  }

  function PushAll(items: seq<Item>, routes: map<int, string>, lookupOk: bool): seq<Push> {
    if items == [] then []
    else PushAll(items[..|items| - 1], routes, lookupOk) + [PushOf(routes, lookupOk, items[|items| - 1])]
  }

  /** The item-by-item fallback. `faults` says how the statement for each item fares. */
  function Fallback(t: Table, items: seq<Item>, faults: seq<Fault>, routes: map<int, string>, lookupOk: bool): Outcome
    requires |faults| == |items|
  {
    if items == [] then Outcome(t, [], [])
    else
      var n := |items| - 1;
      var o := Fallback(t, items[..n], faults[..n], routes, lookupOk);
      var (t', r) := Insert(o.table, items[n].p, faults[n]);
      if r.Err? && !IsDuplicateKey(r.text)
      then Outcome(t', o.pushes, o.dead + [items[n]])
      else Outcome(t', o.pushes + [PushOf(routes, lookupOk, items[n])], o.dead)
  }

  function Flushed(t: Table, items: seq<Item>, routes: map<int, string>, lookupOk: bool,
                   batchFault: Fault, faults: seq<Fault>): Outcome
    requires |faults| == |items|
  {
    if items == [] then Outcome(t, [], [])
    else
      var (t', r) := InsertBatch(t, Payloads(items), batchFault);
      if r.Ok? then Outcome(t', PushAll(items, routes, lookupOk), [])
      else Fallback(t', items, faults, routes, lookupOk)
  }

  // ----- the implementation -----

  class Database {
    var rows: Table

    constructor ()
      ensures rows == map[]
    {
      rows := map[];
    }

    method InsertMessage(p: Payload, f: Fault) returns (r: Result)
      modifies this
      ensures (rows, r) == Insert(old(rows), p, f)
    {
      r := Insert(rows, p, f).1;
      rows := Insert(rows, p, f).0;
    }

    method BatchInsertMessages(ps: seq<Payload>, f: Fault) returns (r: Result)
      modifies this
      ensures (rows, r) == InsertBatch(old(rows), ps, f)
    {
      r := InsertBatch(rows, ps, f).1;
      rows := InsertBatch(rows, ps, f).0;
    }
  }

  /** The map gives every receiver of the batch its own address. */
  predicate Resolved(items: seq<Item>, receiverMap: map<int, string>, routes: map<int, string>, lookupOk: bool) {
    forall i :: 0 <= i < |items| ==>
      var r := items[i].p.receiver;
      r in receiverMap && receiverMap[r] == Route(routes, lookupOk, r)
  }

  /** The addresses of all receivers of a batch from one lookup of each distinct receiver. */
  method LookupRoutes(items: seq<Item>, routes: map<int, string>, lookupOk: bool)
    returns (receiverMap: map<int, string>, receiverIDs: seq<int>)
    ensures forall i, j :: 0 <= i < j < |receiverIDs| ==> receiverIDs[i] != receiverIDs[j]
    ensures forall r :: r in receiverIDs <==> exists i :: 0 <= i < |items| && items[i].p.receiver == r
    ensures Resolved(items, receiverMap, routes, lookupOk)
  {
    receiverMap, receiverIDs := map[], [];
    for i := 0 to |items|
      invariant forall i, j :: 0 <= i < j < |receiverIDs| ==> receiverIDs[i] != receiverIDs[j]
      invariant forall r :: r in receiverIDs <==> exists k :: 0 <= k < i && items[k].p.receiver == r
      invariant forall r :: r in receiverIDs <==> r in receiverMap
      invariant forall r :: r in receiverMap ==> receiverMap[r] == ""
    {
      var r := items[i].p.receiver;
      if r !in receiverMap {
        receiverMap := receiverMap[r := ""];
        receiverIDs := receiverIDs + [r];
      }
    }
    if |receiverIDs| > 0 && lookupOk {
      for i := 0 to |receiverIDs|
        invariant forall r :: r in receiverIDs <==> r in receiverMap
        invariant forall k :: 0 <= k < i ==> receiverIDs[k] in receiverMap && receiverMap[receiverIDs[k]] == Route(routes, lookupOk, receiverIDs[k])
        invariant forall k :: i <= k < |receiverIDs| ==> receiverIDs[k] in receiverMap && receiverMap[receiverIDs[k]] == ""
      {
        if receiverIDs[i] in routes {
          receiverMap := receiverMap[receiverIDs[i] := routes[receiverIDs[i]]];
        }
      }
    }
    forall i | 0 <= i < |items|
      ensures items[i].p.receiver in receiverMap
      ensures receiverMap[items[i].p.receiver] == Route(routes, lookupOk, items[i].p.receiver)
    {
      var r := items[i].p.receiver;
      assert exists k :: 0 <= k < |items| && items[k].p.receiver == r;
      assert r in receiverIDs;
    }
  }

  class BatchWorker {
    const db: Database
    var buf: seq<Item>

    constructor (db: Database)
      ensures this.db == db && buf == []
    {
      this.db := db;
      buf := [];
    }

    /** One turn of the worker's loop that received an item: true when the buffer is full. */
    method Receive(it: Item) returns (full: bool)
      modifies this
      ensures buf == old(buf) + [it]
      ensures full == (|buf| >= BATCH_SIZE)
    {
      buf := buf + [it];
      full := |buf| >= BATCH_SIZE;
    }

    method Flush(routes: map<int, string>, lookupOk: bool, batchFault: Fault, faults: seq<Fault>)
      returns (pushes: seq<Push>, dead: seq<Item>)
      requires |faults| == |buf|
      modifies this, db
      ensures buf == []
      ensures Outcome(db.rows, pushes, dead) == Flushed(old(db.rows), old(buf), routes, lookupOk, batchFault, faults)
    {
      if |buf| == 0 {
        return [], [];
      }
      var items := buf;
      buf := [];
      var receiverMap, receiverIDs := LookupRoutes(items, routes, lookupOk);
      var r := db.BatchInsertMessages(Payloads(items), batchFault);
      if r.Err? {
        pushes, dead := InsertOneByOne(items, faults, receiverMap, routes, lookupOk);
      } else {
        pushes := SpawnPushes(items, receiverMap, routes, lookupOk);
        dead := [];
      }
    }

    method InsertOneByOne(items: seq<Item>, faults: seq<Fault>, receiverMap: map<int, string>,
                          ghost routes: map<int, string>, ghost lookupOk: bool)
      returns (pushes: seq<Push>, dead: seq<Item>)
      requires |faults| == |items| && Resolved(items, receiverMap, routes, lookupOk)
      modifies db
      ensures Outcome(db.rows, pushes, dead) == Fallback(old(db.rows), items, faults, routes, lookupOk)
    {
      pushes, dead := [], [];
      for i := 0 to |items|
        invariant Outcome(db.rows, pushes, dead) == Fallback(old(db.rows), items[..i], faults[..i], routes, lookupOk)
      {
        assert items[..i + 1][..i] == items[..i] && faults[..i + 1][..i] == faults[..i];
        var it := items[i];
        var addr := receiverMap[it.p.receiver];
        var sErr := db.InsertMessage(it.p, faults[i]);
        if sErr.Err? {
          if IsDuplicateKey(sErr.text) {
            pushes := pushes + [Push(it, addr)];
          } else {
            dead := dead + [it];
          }
          continue;
        }
        pushes := pushes + [Push(it, addr)];
      }
      assert items[..|items|] == items && faults[..|items|] == faults;
    }

    method SpawnPushes(items: seq<Item>, receiverMap: map<int, string>,
                       ghost routes: map<int, string>, ghost lookupOk: bool)
      returns (pushes: seq<Push>)
      requires Resolved(items, receiverMap, routes, lookupOk)
      ensures pushes == PushAll(items, routes, lookupOk)
    {
      pushes := [];
      for i := 0 to |items|
        invariant pushes == PushAll(items[..i], routes, lookupOk)
      {
        assert items[..i + 1][..i] == items[..i];
        pushes := pushes + [Push(items[i], receiverMap[items[i].p.receiver])];
      }
      assert items[..|items|] == items;
    }
  }

  // ----- what a flush achieves -----

  /** Every push goes to the address that Redis holds for the item's own receiver; it has no address
      exactly when Redis holds none, or an empty one, or could not be asked. */
  lemma {:induction false} PushAddresses(items: seq<Item>, routes: map<int, string>, lookupOk: bool, i: nat)
    requires i < |items|
    ensures |PushAll(items, routes, lookupOk)| == |items|
    ensures var push := PushAll(items, routes, lookupOk)[i];
            && push.item == items[i]
            && (push.addr != "" ==> lookupOk && items[i].p.receiver in routes && push.addr == routes[items[i].p.receiver])
            && (push.addr == "" ==>
                  !lookupOk || items[i].p.receiver !in routes || routes[items[i].p.receiver] == "")
  {
    var n := |items| - 1;
    if n > 0 {
      PushAddresses(items[..n], routes, lookupOk, if i < n then i else 0);
    }
  }

  function Items(pushes: seq<Push>): seq<Item> {
    if pushes == [] then [] else Items(pushes[..|pushes| - 1]) + [pushes[|pushes| - 1].item]
  }

  lemma {:induction false} ItemsAppend(pushes: seq<Push>, p: Push)
    ensures Items(pushes + [p]) == Items(pushes) + [p.item]
  {
    assert (pushes + [p])[..|pushes|] == pushes;
  }

  lemma {:induction false} PushAllItems(items: seq<Item>, routes: map<int, string>, lookupOk: bool)
    ensures Items(PushAll(items, routes, lookupOk)) == items
  {
    if items != [] {
      var n := |items| - 1;
      PushAllItems(items[..n], routes, lookupOk);
      ItemsAppend(PushAll(items[..n], routes, lookupOk), PushOf(routes, lookupOk, items[n]));
      assert items == items[..n] + [items[n]];
    }
  }

  lemma OneMore(pushed: seq<Item>, dead: seq<Item>, items: seq<Item>, pushed': seq<Item>, dead': seq<Item>)
    requires items != [] && multiset(pushed) + multiset(dead) == multiset(items[..|items| - 1])
    requires || (pushed' == pushed + [items[|items| - 1]] && dead' == dead)
             || (pushed' == pushed && dead' == dead + [items[|items| - 1]])
    ensures multiset(pushed') + multiset(dead') == multiset(items)
  {
    assert items == items[..|items| - 1] + [items[|items| - 1]];
  }

  lemma FallbackStep(t: Table, items: seq<Item>, faults: seq<Fault>, routes: map<int, string>, lookupOk: bool)
    requires |faults| == |items| > 0
    ensures var n := |items| - 1;
            var before := Fallback(t, items[..n], faults[..n], routes, lookupOk);
            var o := Fallback(t, items, faults, routes, lookupOk);
            || (o.pushes == before.pushes + [PushOf(routes, lookupOk, items[n])] && o.dead == before.dead)
            || (o.pushes == before.pushes && o.dead == before.dead + [items[n]])
  {
  }

  lemma {:induction false} FallbackSettlesEachItemOnce(t: Table, items: seq<Item>, faults: seq<Fault>,
                                                       routes: map<int, string>, lookupOk: bool)
    requires |faults| == |items|
    ensures var o := Fallback(t, items, faults, routes, lookupOk);
            multiset(Items(o.pushes)) + multiset(o.dead) == multiset(items)
  {
    if items != [] {
      var n := |items| - 1;
      FallbackSettlesEachItemOnce(t, items[..n], faults[..n], routes, lookupOk);
      FallbackStep(t, items, faults, routes, lookupOk);
      var before := Fallback(t, items[..n], faults[..n], routes, lookupOk);
      var after := Fallback(t, items, faults, routes, lookupOk);
      ItemsAppend(before.pushes, PushOf(routes, lookupOk, items[n]));
      OneMore(Items(before.pushes), before.dead, items, Items(after.pushes), after.dead);
    }
  }

  /** Whatever fails, each item of the batch gets exactly one of a push goroutine, which settles
      it, and a rejection to the dead-letter queue. */
  lemma FlushSettlesEachItemOnce(t: Table, items: seq<Item>, routes: map<int, string>, lookupOk: bool,
                                 batchFault: Fault, faults: seq<Fault>)
    requires |faults| == |items|
    ensures var o := Flushed(t, items, routes, lookupOk, batchFault, faults);
            multiset(Items(o.pushes)) + multiset(o.dead) == multiset(items)
  {
    if items != [] {
      PushAllItems(items, routes, lookupOk);
      FallbackSettlesEachItemOnce(InsertBatch(t, Payloads(items), batchFault).0, items, faults, routes, lookupOk);
    }
  }

  predicate NoFaults(faults: seq<Fault>) {
    forall i :: 0 <= i < |faults| ==> faults[i].NoFault?
  }

  lemma {:induction false} FallbackIsOneByOne(t: Table, items: seq<Item>, faults: seq<Fault>,
                                              routes: map<int, string>, lookupOk: bool)
    requires |faults| == |items| && NoFaults(faults)
    ensures Fallback(t, items, faults, routes, lookupOk)
            == Outcome(InsertEach(t, Payloads(items)), PushAll(items, routes, lookupOk), [])
  {
    if items != [] {
      var n := |items| - 1;
      FallbackIsOneByOne(t, items[..n], faults[..n], routes, lookupOk);
      DuplicateTextIsRecognised();
      assert Payloads(items)[..n] == Payloads(items[..n]);
    }
  }

  /** Refinement: with duplicate keys as the only database error, the batched flush leaves the
      table that handling the items one by one leaves, pushes every item to the address a lookup
      of its own would give, and rejects none. */
  lemma FlushRefinesOneByOne(t: Table, items: seq<Item>, routes: map<int, string>, lookupOk: bool, faults: seq<Fault>)
    requires |faults| == |items| && NoFaults(faults)
    ensures Flushed(t, items, routes, lookupOk, NoFault, faults)
            == Outcome(InsertEach(t, Payloads(items)), PushAll(items, routes, lookupOk), [])
  {
    if items != [] {
      FallbackIsOneByOne(t, items, faults, routes, lookupOk);
    }
  }

  /** Every duplicate-key report among the single inserts is true. */
  predicate HonestReports(t: Table, items: seq<Item>, faults: seq<Fault>)
    requires |faults| == |items|
  {
    items == [] ||
    var n := |items| - 1;
    && HonestReports(t, items[..n], faults[..n])
    && Honest(Fallback(t, items[..n], faults[..n], map[], false).table, items[n].p, faults[n])
  }

  lemma {:induction false} RoutesDoNotMatter(t: Table, items: seq<Item>, faults: seq<Fault>,
                                             routes: map<int, string>, lookupOk: bool)
    requires |faults| == |items|
    ensures Fallback(t, items, faults, routes, lookupOk).table == Fallback(t, items, faults, map[], false).table
  {
    if items != [] {
      var n := |items| - 1;
      RoutesDoNotMatter(t, items[..n], faults[..n], routes, lookupOk);
    }
  }

  /** Under arbitrary failures the fallback overwrites no row, and when duplicate-key reports are
      true, what it pushes is in the table. */
  lemma {:induction false} FallbackStoresWhatItPushes(t: Table, items: seq<Item>, faults: seq<Fault>,
                                                      routes: map<int, string>, lookupOk: bool)
    requires |faults| == |items|
    ensures var o := Fallback(t, items, faults, routes, lookupOk);
            && (forall id :: id in t ==> id in o.table && o.table[id] == t[id])
            && (HonestReports(t, items, faults) ==> forall p :: p in o.pushes ==> p.item.p.msgId in o.table)
  {
    if items != [] {
      var n := |items| - 1;
      FallbackStoresWhatItPushes(t, items[..n], faults[..n], routes, lookupOk);
      RoutesDoNotMatter(t, items[..n], faults[..n], routes, lookupOk);
    }
  }
}
