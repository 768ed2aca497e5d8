/**
 The messages table and its two insert statements (apps/logic/dao/messages.go), with the test
 that tells a duplicate-key error from other errors (apps/logic/service/upload_consumer.go).
 */
module Messages {

  datatype Kind = Single | Group | AI | Unknown

  datatype Payload = Payload(
    msgId: int, seqId: int, kind: Kind, groupId: int, sender: int, receiver: int, content: string)

  datatype Row = Row(seqId: int, sender: int, receiver: int, groupId: int, content: string)

  /** The table, by its primary key msg_id. */
  type Table = map<int, Row>

  function RowOf(p: Payload): Row {
    Row(p.seqId, p.sender, p.receiver, p.groupId, p.content)
  }

  predicate Stored(t: Table, p: Payload) {
    p.msgId in t && t[p.msgId] == RowOf(p)
  }

  function InsertIfAbsent(t: Table, p: Payload): Table {
    if p.msgId in t then t else t[p.msgId := RowOf(p)]
  }

  /** The reference: items handled one at a time. */
  function InsertEach(t: Table, ps: seq<Payload>): Table {
    if ps == [] then t else InsertIfAbsent(InsertEach(t, ps[..|ps| - 1]), ps[|ps| - 1])
  }

  /** One INSERT statement for the whole batch: it is applied as a whole or not at all, and a
      key that is in the table or twice in the batch makes it fail. */
  predicate BatchFits(t: Table, ps: seq<Payload>) {
    && (forall i :: 0 <= i < |ps| ==> ps[i].msgId !in t)
    && (forall i, j :: 0 <= i < j < |ps| ==> ps[i].msgId != ps[j].msgId)
  }

  predicate Contains(s: string, part: string) {
    part <= s || (s != [] && Contains(s[1..], part))
  }

  predicate IsDuplicateKey(text: string) {
    Contains(text, "1062") || Contains(text, "Duplicate entry")
  }

  const DUPLICATE := "Error " + "1062" + " (23000): Duplicate entry"

  /** The test is a substring search: it accepts every text with these digits in it. */
  lemma {:induction false} ContainsInTheMiddle(before: string, part: string, after: string)
    ensures Contains(before + part + after, part)
  {
    if before == [] {
      assert part <= before + part + after;
    } else {
      ContainsInTheMiddle(before[1..], part, after);
      assert (before + part + after)[1..] == before[1..] + part + after;
    }
  }

  lemma DuplicateTextIsRecognised()
    ensures IsDuplicateKey(DUPLICATE)
  {
    ContainsInTheMiddle("Error ", "1062", " (23000): Duplicate entry");
  }

  predicate OccursAt(s: string, part: string, i: nat) {
    i + |part| <= |s| && s[i..i + |part|] == part
  }

  lemma OccursLater(s: string, part: string, i: nat)
    requires s != []
    ensures OccursAt(s[1..], part, i) <==> OccursAt(s, part, i + 1)
  {
    if i + 1 + |part| <= |s| {
      assert s[1..][i..i + |part|] == s[i + 1..i + 1 + |part|];
    }
  }

  lemma {:induction false} ContainsMeaning(s: string, part: string)
    ensures Contains(s, part) <==> exists i :: OccursAt(s, part, i)
  {
    assert part <= s <==> OccursAt(s, part, 0);
    if s != [] {
      ContainsMeaning(s[1..], part);
      if Contains(s[1..], part) {
        var i :| OccursAt(s[1..], part, i);
        OccursLater(s, part, i);
      }
      if i: nat :| OccursAt(s, part, i) {
        if i > 0 {
          OccursLater(s, part, i - 1);
        }
      }
    }
  }

  /** An error counts as a duplicate key if and only if its text contains one of the two texts. */
  lemma DuplicateKeyMeaning(text: string)
    ensures IsDuplicateKey(text) <==>
            exists i :: OccursAt(text, "1062", i) || OccursAt(text, "Duplicate entry", i)
  {
    ContainsMeaning(text, "1062");
    ContainsMeaning(text, "Duplicate entry");
  }

  /** A failure of the statement other than a duplicate key. The client may see an error although
      the statement was committed. */
  datatype Fault = NoFault | Fault(text: string, committed: bool)

  datatype Result = Ok | Err(text: string)

  function Insert(t: Table, p: Payload, f: Fault): (Table, Result) {
    match f
    case NoFault => if p.msgId in t then (t, Err(DUPLICATE)) else (t[p.msgId := RowOf(p)], Ok)
    case Fault(text, committed) => (if committed then InsertIfAbsent(t, p) else t, Err(text))
  }

  function InsertBatch(t: Table, ps: seq<Payload>, f: Fault): (Table, Result) {
    match f
    case NoFault => if BatchFits(t, ps) then (InsertEach(t, ps), Ok) else (t, Err(DUPLICATE))
    case Fault(text, committed) => (if committed && BatchFits(t, ps) then InsertEach(t, ps) else t, Err(text))
  }

  /** A failure whose text reads as a duplicate key is honest when the row is there all the same. */
  predicate Honest(t: Table, p: Payload, f: Fault) {
    f.Fault? && IsDuplicateKey(f.text) ==> f.committed || p.msgId in t
  }

  // ----- facts about the table operations -----

  /** Inserting one by one overwrites nothing and leaves a row for every item. */
  lemma {:induction false} InsertEachKeepsAndCovers(t: Table, ps: seq<Payload>)
    ensures forall id :: id in t ==> id in InsertEach(t, ps) && InsertEach(t, ps)[id] == t[id]
    ensures forall id :: id in InsertEach(t, ps) ==> id in t || exists p :: p in ps && p.msgId == id && InsertEach(t, ps)[id] == RowOf(p)
    ensures forall p :: p in ps ==> p.msgId in InsertEach(t, ps)
  {
    if ps != [] {
      var n := |ps| - 1;
      InsertEachKeepsAndCovers(t, ps[..n]);
      assert ps == ps[..n] + [ps[n]];
    }
  }

  /** A batch of one item behaves as the single insert. */
  lemma BatchOfOneIsSingle(t: Table, p: Payload)
    ensures InsertBatch(t, [p], NoFault) == Insert(t, p, NoFault)
  {
    assert [p][..0] == [];
    assert InsertEach(t, []) == t;
    assert BatchFits(t, [p]) <==> [p][0].msgId !in t;
  }

  /** A row under the MsgId of a payload is its own if and only if they agree field by field. */
  lemma StoredMeaning(t: Table, p: Payload)
    ensures Stored(t, p) <==>
            && p.msgId in t && t[p.msgId].seqId == p.seqId && t[p.msgId].sender == p.sender
            && t[p.msgId].receiver == p.receiver && t[p.msgId].groupId == p.groupId && t[p.msgId].content == p.content
  {
  }

  lemma BatchFitsOneMore(t: Table, ps: seq<Payload>)
    requires ps != []
    ensures var n := |ps| - 1;
            BatchFits(t, ps) <==>
            BatchFits(t, ps[..n]) && ps[n].msgId !in t && forall i :: 0 <= i < n ==> ps[i].msgId != ps[n].msgId
  {
    assert forall i :: 0 <= i < |ps| - 1 ==> ps[..|ps| - 1][i] == ps[i];
  }

  lemma KeysOneMore(t: Table, p: Payload)
    ensures |InsertIfAbsent(t, p).Keys| == |t.Keys| + if p.msgId in t then 0 else 1
  {
    if p.msgId !in t {
      assert InsertIfAbsent(t, p).Keys == t.Keys + {p.msgId};
    }
  }

  /** The last item of a batch fits, or its key was there before. */
  lemma LastFits(t: Table, ps: seq<Payload>)
    requires ps != []
    ensures var n := |ps| - 1;
            BatchFits(t, ps) <==> BatchFits(t, ps[..n]) && ps[n].msgId !in InsertEach(t, ps[..n])
  {
    var n := |ps| - 1;
    BatchFitsOneMore(t, ps);
    InsertedIds(t, ps[..n], ps[n].msgId);
    assert forall i :: 0 <= i < n ==> ps[..n][i] == ps[i];
  }

  /** A batch fits exactly when it adds as many rows as it has items. */
  lemma {:induction false} BatchFitsExactlyWhen(t: Table, ps: seq<Payload>)
    ensures |InsertEach(t, ps).Keys| <= |t.Keys| + |ps|
    ensures BatchFits(t, ps) <==> |InsertEach(t, ps).Keys| == |t.Keys| + |ps|
  {
    if ps != [] {
      var n := |ps| - 1;
      BatchFitsExactlyWhen(t, ps[..n]);
      LastFits(t, ps);
      KeysOneMore(InsertEach(t, ps[..n]), ps[n]);
    }
  }

  lemma InsertedIds(t: Table, ps: seq<Payload>, id: int)
    ensures id in InsertEach(t, ps) <==> id in t || exists i :: 0 <= i < |ps| && ps[i].msgId == id
  {
    InsertEachKeepsAndCovers(t, ps);
  }

  /** The batch statement is all or nothing: it is applied if and only if no key is in the table or
      twice in the batch and the database did not fail before the commit, and it reports success
      only if the database did not fail at all. */
  lemma BatchIsAllOrNothing(t: Table, ps: seq<Payload>, f: Fault)
    ensures var (t', r) := InsertBatch(t, ps, f);
            && (r.Ok? <==> f.NoFault? && BatchFits(t, ps))
            && (BatchFits(t, ps) && (f.NoFault? || f.committed) ==>
                  t'.Keys == t.Keys + (set p | p in ps :: p.msgId) && forall p :: p in ps ==> Stored(t', p))
            && (!(BatchFits(t, ps) && (f.NoFault? || f.committed)) ==> t' == t)
            && (forall id :: id in t ==> id in t' && t'[id] == t[id])
  {
    InsertEachKeepsAndCovers(t, ps);
    if BatchFits(t, ps) {
      forall p | p in ps
        ensures Stored(InsertEach(t, ps), p)
      {
        FittingIsStored(t, ps, p);
      }
    }
  }

  lemma FittingIsStored(t: Table, ps: seq<Payload>, p: Payload)
    requires BatchFits(t, ps) && p in ps
    ensures Stored(InsertEach(t, ps), p)
  {
    InsertEachKeepsAndCovers(t, ps);
    var i :| 0 <= i < |ps| && ps[i] == p;
    assert p.msgId !in t;
    var q :| q in ps && q.msgId == p.msgId && InsertEach(t, ps)[p.msgId] == RowOf(q);
    var j :| 0 <= j < |ps| && ps[j] == q;
    assert i == j;
  }

  /** A redelivered batch changes nothing. */
  lemma {:induction false} RedeliveryIsNoOp(t: Table, ps: seq<Payload>)
    requires forall p :: p in ps ==> p.msgId in t
    ensures InsertEach(t, ps) == t
  {
    if ps != [] {
      assert ps[|ps| - 1] in ps;
      RedeliveryIsNoOp(t, ps[..|ps| - 1]);
    }
  }

  lemma InsertingTwiceIsInsertingOnce(t: Table, ps: seq<Payload>)
    ensures InsertEach(InsertEach(t, ps), ps) == InsertEach(t, ps)
  {
    InsertEachKeepsAndCovers(t, ps);
    RedeliveryIsNoOp(InsertEach(t, ps), ps);
  }
}
