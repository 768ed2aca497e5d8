/**
 The GrowRPC client multiplexer (apps/pkg/GrowRPC/client.go).

 Each stretch of code under the client's mutex `mu` is one function on the fields it protects,
 implemented by the class `Client`. The transition system interleaves any number of callers,
 of which one at a time holds the lock `sending`, with the receive loop, context
 cancellations, Close and the final terminateCalls. The server is arbitrary: it may answer
 with duplicate, unknown or reordered sequence numbers, and any read or write may fail.
 */
module RpcClient {
  import opened Options

  type CallId = nat

  /** Sequence numbers are uint64 and wrap around. */
  const SEQ_LIMIT: nat := 0x1_0000_0000_0000_0000

  function NextSeq(seq_: nat): nat { (seq_ + 1) % SEQ_LIMIT }

  /** What `mu` protects. */
  datatype Shared = Shared(nextSeq: nat, pending: map<nat, CallId>, closing: bool, shutdown: bool)

  // ----- the locked regions -----

  /** registerCall: the sequence number taken, if the client still accepts calls. */
  function Register(s: Shared, c: CallId): (Shared, Option<nat>) {
    if s.closing || s.shutdown then (s, None)
    else (s.(pending := s.pending[s.nextSeq := c], nextSeq := NextSeq(s.nextSeq)), Some(s.nextSeq))
  }

  /** removeCall: the call that was waiting under the number, if any. */
  function Remove(s: Shared, q: nat): (Shared, Option<CallId>) {
    (s.(pending := s.pending - {q}), if q in s.pending then Some(s.pending[q]) else None)
  }

  /** The calls in the order in which an iteration over `pending` visits them. */
  ghost predicate Visits(pending: map<nat, CallId>, order: seq<nat>) {
    && (forall i, j :: 0 <= i < j < |order| ==> order[i] != order[j])
    && (forall q :: q in order <==> q in pending)
  }

  /** Why a Done channel was sent to. */
  datatype Reason = Rejected | WriteFailed | Answered(seqInHeader: nat) | Terminated

  datatype Completion = Completion(call: CallId, why: Reason)

  ghost function TerminatedAll(pending: map<nat, CallId>, order: seq<nat>): (cs: seq<Completion>)
    requires forall q :: q in order ==> q in pending
    ensures |cs| == |order|
    ensures forall i :: 0 <= i < |cs| ==> cs[i] == Completion(pending[order[i]], Terminated)
  {
    if order == [] then []
    else
      assert forall q :: q in order[..|order| - 1] ==> q in order;
      TerminatedAll(pending, order[..|order| - 1]) + [Completion(pending[order[|order| - 1]], Terminated)]
  }

  // ----- the implementation -----

  class Client {
    var nextSeq: nat
    var pending: map<nat, CallId>
    var closing: bool
    var shutdown: bool
    /** Every send on a Done channel, in order. */
    var completed: seq<Completion>

    function View(): Shared
      reads this
    {
      Shared(nextSeq, pending, closing, shutdown)
    }

    constructor ()
      ensures View() == Shared(1, map[], false, false) && completed == []
    {
      nextSeq, pending, closing, shutdown, completed := 1, map[], false, false, [];
    }

    method RegisterCall(c: CallId) returns (q: Option<nat>)
      modifies this`nextSeq, this`pending
      ensures (View(), q) == Register(old(View()), c)
    {
      if closing || shutdown {
        return None;
      }
      q := Some(nextSeq);
      pending := pending[nextSeq := c];
      nextSeq := NextSeq(nextSeq);
    }

    method RemoveCall(q: nat) returns (c: Option<CallId>)
      modifies this`pending
      ensures (View(), c) == Remove(old(View()), q)
    {
      c := if q in pending then Some(pending[q]) else None;
      pending := pending - {q};
    }

    method Close() returns (ok: bool)
      modifies this`closing
      ensures ok == !old(closing)
      ensures View() == old(View()).(closing := true)
    {
      ok := !closing;
      closing := true;
    }

    /** Completes everything that is pending, in whatever order the map is visited. Nothing is
        taken out of `pending`. */
    method TerminateCalls() returns (ghost order: seq<nat>)
      modifies this`shutdown, this`completed
      ensures View() == old(View()).(shutdown := true)
      ensures Visits(pending, order)
      ensures completed == old(completed) + TerminatedAll(pending, order)
    {
      shutdown := true;
      order := [];
      var todo := pending.Keys;
      while todo != {}
        invariant shutdown && todo <= pending.Keys
        invariant forall i, j :: 0 <= i < j < |order| ==> order[i] != order[j]
        invariant forall q :: q in order <==> q in pending.Keys - todo
        invariant completed == old(completed) + TerminatedAll(pending, order)
        decreases |todo|
      {
        var q :| q in todo;
        assert q !in order;
        completed := completed + [Completion(pending[q], Terminated)];
        assert (order + [q])[..|order|] == order;
        order := order + [q];
        todo := todo - {q};
      }
    }
  }

  // ----- the transition system -----

  /** The holder of `sending`: nobody, a caller that is writing its request, or one that has
      taken its failed call out of `pending` and is about to complete it. */
  datatype Sender = Free | Writing(call: CallId, q: nat) | Failing(call: CallId)

  /** The receive loop: reading, holding a call it took out for the header it read, stopped by an
      error and about to terminate, or finished. */
  datatype Receiver = Reading | Holding(call: CallId, q: nat) | Stopped | Finished

  datatype System = System(
    sh: Shared, sender: Sender, receiver: Receiver,
    /** The calls in registration order, and those that ever entered send. */
    registered: seq<CallId>, started: set<CallId>,
    cancelled: set<CallId>, completions: seq<Completion>)

  const Start: System := System(Shared(1, map[], false, false), Free, Reading, [], {}, {}, [])

  datatype Event =
    | Send(call: CallId)
    | WriteOk
    | WriteError
    | FinishFailing
    | Header(q: nat, bodyOk: bool)
    | FinishAnswer(bodyOk: bool)
    | ReadError
    | Terminate(order: seq<nat>)
    | CancelCall(call: CallId, q: nat)
    | CloseClient

  /** The number under which a call was registered; 0 when it never was. */
  predicate OwnSeq(s: System, c: CallId, q: nat) {
    if c in s.registered then 0 < q <= |s.registered| && s.registered[q - 1] == c else q == 0
  }

  ghost predicate Enabled(s: System, e: Event) {
    match e
    case Send(c) => s.sender.Free? && c !in s.started
    case WriteOk => s.sender.Writing?
    case WriteError => s.sender.Writing?
    case FinishFailing => s.sender.Failing?
    case Header(_, _) => s.receiver.Reading?
    case FinishAnswer(_) => s.receiver.Holding?
    case ReadError => s.receiver.Reading?
    case Terminate(order) => s.receiver.Stopped? && s.sender.Free? && Visits(s.sh.pending, order)
    case CancelCall(c, q) =>
      // Call selects on its context only after send has returned
      && c in s.started && c !in s.cancelled && OwnSeq(s, c, q)
      && (s.sender.Free? || s.sender.call != c)
    case CloseClient => true
  }

  function AfterSend(s: System, c: CallId): System {
    var (sh, q) := Register(s.sh, c);
    var t := s.(sh := sh, started := s.started + {c});
    match q
    case None => t.(completions := s.completions + [Completion(c, Rejected)])
    case Some(n) => t.(registered := s.registered + [c], sender := Writing(c, n))
  }

  function AfterHeader(s: System, q: nat, bodyOk: bool): System {
    var (sh, found) := Remove(s.sh, q);
    s.(sh := sh,
       receiver := match found
                   case Some(c) => Holding(c, q)
                   case None => if bodyOk then Reading else Stopped)
  }

  ghost function Apply(s: System, e: Event): System
    requires Enabled(s, e)
  {
    match e
    case Send(c) => AfterSend(s, c)
    case WriteOk => s.(sender := Free)
    case WriteError =>
      var (sh, found) := Remove(s.sh, s.sender.q);
      s.(sh := sh, sender := if found.Some? then Failing(found.value) else Free)
    case FinishFailing =>
      s.(sender := Free, completions := s.completions + [Completion(s.sender.call, WriteFailed)])
    case Header(q, bodyOk) => AfterHeader(s, q, bodyOk)
    case FinishAnswer(bodyOk) =>
      s.(receiver := if bodyOk then Reading else Stopped,
         completions := s.completions + [Completion(s.receiver.call, Answered(s.receiver.q))])
    case ReadError => s.(receiver := Stopped)
    case Terminate(order) =>
      s.(sh := s.sh.(shutdown := true), receiver := Finished,
         completions := s.completions + TerminatedAll(s.sh.pending, order))
    case CancelCall(c, q) => s.(sh := Remove(s.sh, q).0, cancelled := s.cancelled + {c})
    case CloseClient => s.(sh := s.sh.(closing := true))
  }

  /** A run in which the sequence numbers have not wrapped around. */
  ghost predicate Run(tr: seq<System>, es: seq<Event>) {
    && |tr| == |es| + 1
    && tr[0] == Start
    && (forall i :: 0 <= i < |es| ==> Enabled(tr[i], es[i]) && tr[i + 1] == Apply(tr[i], es[i]))
    && |tr[|es|].registered| < SEQ_LIMIT - 1
  }

  // ----- the invariant -----

  ghost predicate IsDone(s: System, c: CallId) {
    exists k :: k in s.completions && k.call == c
  }

  predicate InHand(s: System, c: CallId) {
    (s.sender.Failing? && s.sender.call == c) || (s.receiver.Holding? && s.receiver.call == c)
  }

  /** Calls are numbered 1, 2, 3 and so on, each number is used once, and whatever is waiting
      or being worked on is known under its own number. */
  ghost predicate Numbering(s: System) {
    && s.sh.nextSeq == |s.registered| + 1
    && (forall i, j :: 0 <= i < j < |s.registered| ==> s.registered[i] != s.registered[j])
    && (forall c :: c in s.registered ==> c in s.started)
    && (forall q :: q in s.sh.pending ==> 0 < q <= |s.registered| && s.sh.pending[q] == s.registered[q - 1])
    && (s.sender.Writing? ==> OwnSeq(s, s.sender.call, s.sender.q) && s.sender.q > 0)
    && (s.sender.Failing? ==> s.sender.call in s.registered)
    && (s.receiver.Holding? ==> OwnSeq(s, s.receiver.call, s.receiver.q) && s.receiver.q > 0)
  }

  /** Nothing is completed twice, and every answer carried the call's own number. */
  ghost predicate Once(s: System) {
    && (forall i, j :: 0 <= i < j < |s.completions| ==> s.completions[i].call != s.completions[j].call)
    && (forall k :: k in s.completions ==> k.call in s.started)
    && (forall k :: k in s.completions && k.why.Answered? ==>
          k.call in s.registered && OwnSeq(s, k.call, k.why.seqInHeader))
  }

  /** What will still be completed has not been completed, and has a single owner. */
  ghost predicate OpenCalls(s: System) {
    && (!s.sh.shutdown ==> forall q :: q in s.sh.pending ==> !IsDone(s, s.sh.pending[q]))
    && (forall q :: q in s.sh.pending ==> !InHand(s, s.sh.pending[q]))
    && (s.sender.Failing? ==> !IsDone(s, s.sender.call))
    && (s.receiver.Holding? ==> !IsDone(s, s.receiver.call))
    && (s.sender.Failing? && s.receiver.Holding? ==> s.sender.call != s.receiver.call)
  }

  ghost predicate Phases(s: System) {
    && (s.sh.shutdown <==> s.receiver.Finished?)
    && (s.sh.shutdown ==> s.sender.Free?)
  }

  /** No call is forgotten, whether it was registered or turned away. */
  ghost predicate Accounted(s: System) {
    && (forall i :: 0 <= i < |s.registered| ==>
          IsDone(s, s.registered[i]) || s.registered[i] in s.cancelled || InHand(s, s.registered[i])
          || (!s.sh.shutdown && i + 1 in s.sh.pending))
    && (forall c :: c in s.started && c !in s.registered ==> Completion(c, Rejected) in s.completions)
  }

  ghost predicate Inv(s: System) {
    Numbering(s) && Once(s) && OpenCalls(s) && Phases(s) && Accounted(s)
  }

  lemma SendKeepsNumbering(s: System, c: CallId)
    requires Numbering(s) && Enabled(s, Send(c)) && |AfterSend(s, c).registered| < SEQ_LIMIT - 1
    ensures Numbering(AfterSend(s, c))
  {
  }

  lemma StepKeepsNumbering(s: System, e: Event)
    requires Numbering(s) && Enabled(s, e) && |Apply(s, e).registered| < SEQ_LIMIT - 1
    ensures Numbering(Apply(s, e))
  {
    if e.Send? {
      SendKeepsNumbering(s, e.call);
    }
  }

  lemma TerminateKeepsOnce(s: System, order: seq<nat>)
    requires Inv(s) && Enabled(s, Terminate(order))
    ensures Once(Apply(s, Terminate(order)))
  {
    var all := TerminatedAll(s.sh.pending, order);
    var t := Apply(s, Terminate(order));
    forall i, j | 0 <= i < j < |t.completions|
      ensures t.completions[i].call != t.completions[j].call
    {
      var n := |s.completions|;
      if n <= j {
        assert order[j - n] in order;
        if i < n {
          assert s.completions[i] in s.completions;
        } else {
          assert order[i - n] in order && order[i - n] != order[j - n];
        }
      }
    }
  }

  lemma SendKeepsOnce(s: System, c: CallId)
    requires Inv(s) && Enabled(s, Send(c))
    ensures Once(AfterSend(s, c))
  {
    assert forall k :: k in s.completions ==> k.call != c;
  }

  lemma StepKeepsOnce(s: System, e: Event)
    requires Inv(s) && Enabled(s, e)
    ensures Once(Apply(s, e))
  {
    match e
    case Terminate(order) => TerminateKeepsOnce(s, order);
    case Send(c) => SendKeepsOnce(s, c);
    case FinishFailing => assert forall k :: k in s.completions ==> k.call != s.sender.call;
    case FinishAnswer(_) => assert forall k :: k in s.completions ==> k.call != s.receiver.call;
    case _ =>
  }

  lemma SendKeepsOpenCalls(s: System, c: CallId)
    requires Numbering(s) && Once(s) && OpenCalls(s) && Phases(s) && Enabled(s, Send(c))
    ensures OpenCalls(AfterSend(s, c))
  {
    var t := AfterSend(s, c);
    assert forall k :: k in s.completions ==> k.call != c;
    assert forall d :: d != c ==> (IsDone(t, d) <==> IsDone(s, d));
  }

  lemma FinishKeepsOpenCalls(s: System, e: Event)
    requires Numbering(s) && OpenCalls(s) && Phases(s) && Enabled(s, e) && (e.FinishFailing? || e.FinishAnswer?)
    ensures OpenCalls(Apply(s, e))
  {
    var t := Apply(s, e);
    var done := if e.FinishFailing? then s.sender.call else s.receiver.call;
    assert forall d :: IsDone(t, d) ==> IsDone(s, d) || d == done;
  }

  lemma StepKeepsOpenCalls(s: System, e: Event)
    requires Numbering(s) && Once(s) && OpenCalls(s) && Phases(s) && Enabled(s, e)
    ensures OpenCalls(Apply(s, e))
  {
    match e
    case Send(c) => SendKeepsOpenCalls(s, c);
    case FinishFailing => FinishKeepsOpenCalls(s, e);
    case FinishAnswer(_) => FinishKeepsOpenCalls(s, e);
    case _ =>
  }

  lemma StepKeepsPhases(s: System, e: Event)
    requires Phases(s) && Enabled(s, e)
    ensures Phases(Apply(s, e))
  {
  }

  lemma CompletionsStay(s: System, e: Event)
    requires Enabled(s, e)
    ensures s.completions <= Apply(s, e).completions
  {
  }

  /** What was done stays done. */
  lemma DoneStays(s: System, e: Event, c: CallId)
    requires Enabled(s, e) && IsDone(s, c)
    ensures IsDone(Apply(s, e), c)
  {
    var k :| k in s.completions && k.call == c;
    assert k in Apply(s, e).completions;
  }

  lemma StepKeepsTurnedAway(s: System, e: Event, c: CallId)
    requires Numbering(s) && Accounted(s) && Enabled(s, e)
    requires c in Apply(s, e).started && c !in Apply(s, e).registered
    ensures Completion(c, Rejected) in Apply(s, e).completions
  {
    CompletionsStay(s, e);
  }

  lemma StepKeepsRegistered(s: System, e: Event, i: nat)
    requires Numbering(s) && OpenCalls(s) && Phases(s) && Accounted(s) && Enabled(s, e)
    requires i < |Apply(s, e).registered|
    ensures var t := Apply(s, e); var c := t.registered[i];
            IsDone(t, c) || c in t.cancelled || InHand(t, c) || (!t.sh.shutdown && i + 1 in t.sh.pending)
  {
    var t := Apply(s, e);
    if i < |s.registered| {
      var c := s.registered[i];
      if IsDone(s, c) {
        DoneStays(s, e, c);
      } else if InHand(s, c) {
        match e
        case FinishFailing => assert Completion(s.sender.call, WriteFailed) in t.completions;
        case FinishAnswer(_) => assert Completion(s.receiver.call, Answered(s.receiver.q)) in t.completions;
        case _ =>
      } else if e.Terminate? && i + 1 in s.sh.pending {
        var n :| 0 <= n < |e.order| && e.order[n] == i + 1;
        assert TerminatedAll(s.sh.pending, e.order)[n] in t.completions;
      }
    }
  }

  lemma StepKeepsAccounted(s: System, e: Event)
    requires Numbering(s) && OpenCalls(s) && Phases(s) && Accounted(s) && Enabled(s, e)
    ensures Accounted(Apply(s, e))
  {
    var t := Apply(s, e);
    forall i | 0 <= i < |t.registered|
      ensures IsDone(t, t.registered[i]) || t.registered[i] in t.cancelled || InHand(t, t.registered[i])
              || (!t.sh.shutdown && i + 1 in t.sh.pending)
    {
      StepKeepsRegistered(s, e, i);
    }
    forall c | c in t.started && c !in t.registered
      ensures Completion(c, Rejected) in t.completions
    {
      StepKeepsTurnedAway(s, e, c);
    }
  }

  lemma StepKeepsInv(s: System, e: Event)
    requires Inv(s) && Enabled(s, e) && |Apply(s, e).registered| < SEQ_LIMIT - 1
    ensures Inv(Apply(s, e))
  {
    StepKeepsNumbering(s, e);
    StepKeepsOnce(s, e);
    StepKeepsOpenCalls(s, e);
    StepKeepsPhases(s, e);
    StepKeepsAccounted(s, e);
  }

  lemma StepGrows(s: System, e: Event)
    requires Enabled(s, e)
    ensures var t := Apply(s, e);
            && s.registered <= t.registered
            && (s.sh.shutdown ==> t.sh.shutdown) && (s.sh.closing ==> t.sh.closing)
            && (s.sh.shutdown || s.sh.closing ==> t.registered == s.registered)
  {
  }

  lemma {:induction false} RegisteredGrows(tr: seq<System>, es: seq<Event>, i: nat, j: nat)
    requires Run(tr, es) && i <= j < |tr|
    ensures tr[i].registered <= tr[j].registered
    ensures tr[i].sh.shutdown ==> tr[j].sh.shutdown
    ensures tr[i].sh.closing ==> tr[j].sh.closing
    ensures tr[i].sh.shutdown || tr[i].sh.closing ==> tr[j].registered == tr[i].registered
  {
    if i < j {
      RegisteredGrows(tr, es, i, j - 1);
      StepGrows(tr[j - 1], es[j - 1]);
    }
  }

  lemma {:induction false} RunKeepsInv(tr: seq<System>, es: seq<Event>, i: nat)
    requires Run(tr, es) && i < |tr|
    ensures Inv(tr[i])
  {
    RegisteredGrows(tr, es, i, |es|);
    if i > 0 {
      RunKeepsInv(tr, es, i - 1);
      StepKeepsInv(tr[i - 1], es[i - 1]);
    }
  }

  // ----- what callers rely on -----

  function TimesDone(cs: seq<Completion>, c: CallId): nat {
    if cs == [] then 0
    else TimesDone(cs[..|cs| - 1], c) + if cs[|cs| - 1].call == c then 1 else 0
  }

  lemma {:induction false} DistinctMeansOnce(cs: seq<Completion>, c: CallId)
    requires forall i, j :: 0 <= i < j < |cs| ==> cs[i].call != cs[j].call
    ensures TimesDone(cs, c) <= 1
    ensures TimesDone(cs, c) == 1 <==> exists k :: k in cs && k.call == c
  {
    if cs != [] {
      var n := |cs| - 1;
      DistinctMeansOnce(cs[..n], c);
      assert cs == cs[..n] + [cs[n]];
      assert forall k :: k in cs[..n] ==> k.call != cs[n].call;
    }
  }

  /** A Done channel is sent to at most once in any run, so one buffered place is enough and no
      send on it blocks; an answer that completes a call carried the number of that call and of
      no other. */
  lemma CompletedAtMostOnce(tr: seq<System>, es: seq<Event>, i: nat, c: CallId)
    requires Run(tr, es) && i < |tr|
    ensures TimesDone(tr[i].completions, c) <= 1
    ensures forall k :: k in tr[i].completions && k.why.Answered? ==>
              var q := k.why.seqInHeader;
              && 0 < q <= |tr[i].registered| && tr[i].registered[q - 1] == k.call
              && (forall p :: 0 <= p < |tr[i].registered| && tr[i].registered[p] == k.call ==> p == q - 1)
  {
    RunKeepsInv(tr, es, i);
    DistinctMeansOnce(tr[i].completions, c);
  }

  /** After Close no call is registered any more; one that enters send is turned away. */
  lemma CloseTurnsCallsAway(tr: seq<System>, es: seq<Event>, i: nat, j: nat, c: CallId)
    requires Run(tr, es) && i < j < |tr| && es[i].CloseClient?
    ensures tr[j].registered == tr[i].registered
    ensures c in tr[j].started && c !in tr[i].started ==>
              Completion(c, Rejected) in tr[j].completions && TimesDone(tr[j].completions, c) == 1
  {
    assert tr[i + 1] == Apply(tr[i], es[i]);
    RegisteredGrows(tr, es, i + 1, j);
    RunKeepsInv(tr, es, i);
    RunKeepsInv(tr, es, j);
    DistinctMeansOnce(tr[j].completions, c);
    assert c in tr[i].registered ==> c in tr[i].started;
  }

  /** After terminateCalls every call that ever entered send has been completed exactly once or
      was cancelled by its context, and none is registered any more. */
  lemma TerminateSettlesEverything(tr: seq<System>, es: seq<Event>, i: nat, j: nat, c: CallId)
    requires Run(tr, es) && i < j < |tr| && es[i].Terminate?
    ensures tr[j].registered == tr[i].registered
    ensures c in tr[j].started ==> TimesDone(tr[j].completions, c) == 1 || c in tr[j].cancelled
  {
    assert tr[i + 1] == Apply(tr[i], es[i]);
    RegisteredGrows(tr, es, i + 1, j);
    RunKeepsInv(tr, es, j);
    DistinctMeansOnce(tr[j].completions, c);
  }

  // ----- errors stop the receive loop -----

  /** The header or the body cannot be read. */
  predicate Fatal(s: System, e: Event) {
    || e.ReadError?
    || (e.FinishAnswer? && !e.bodyOk)
    || (e.Header? && !e.bodyOk && e.q !in s.sh.pending)
  }

  ghost predicate FatalBefore(tr: seq<System>, es: seq<Event>, i: nat)
    requires i <= |es| < |tr|
  {
    exists j :: 0 <= j < i && Fatal(tr[j], es[j])
  }

  predicate LoopEnded(s: System) { s.receiver.Stopped? || s.receiver.Finished? }

  lemma StepEndsLoop(s: System, e: Event)
    requires Enabled(s, e)
    ensures LoopEnded(Apply(s, e)) <==> LoopEnded(s) || Fatal(s, e)
  {
  }

  /** The receive loop has ended if and only if a header or a body could not be read. So unknown
      numbers and duplicates do not end it, and after an error no header is taken any more. */
  lemma {:induction false} LoopEndsExactlyOnError(tr: seq<System>, es: seq<Event>, i: nat)
    requires Run(tr, es) && i < |tr|
    ensures LoopEnded(tr[i]) <==> FatalBefore(tr, es, i)
    ensures LoopEnded(tr[i]) && i < |es| ==> !es[i].Header? && !es[i].FinishAnswer? && !es[i].ReadError?
  {
    if i > 0 {
      LoopEndsExactlyOnError(tr, es, i - 1);
      StepEndsLoop(tr[i - 1], es[i - 1]);
      assert FatalBefore(tr, es, i) <==> FatalBefore(tr, es, i - 1) || Fatal(tr[i - 1], es[i - 1]);
    }
  }

  lemma {:induction false} OrderExists(pending: map<nat, CallId>) returns (order: seq<nat>)
    ensures Visits(pending, order)
    decreases |pending.Keys|
  {
    order := [];
    if pending.Keys != {} {
      var q :| q in pending.Keys;
      var rest := OrderExists(pending - {q});
      order := rest + [q];
    }
  }

  /** The sender's next step while it holds the lock. */
  function SenderStep(s: System): Event { if s.sender.Writing? then WriteOk else FinishFailing }

  /** An error leads to terminateCalls: once the loop has stopped, the sender can always go on to
      release its lock, and with the lock free the termination can happen. */
  lemma StoppedLoopTerminates(s: System) returns (order: seq<nat>)
    requires s.receiver.Stopped?
    ensures s.sender.Free? ==> Enabled(s, Terminate(order)) && Apply(s, Terminate(order)).receiver.Finished?
    ensures !s.sender.Free? ==>
              && Enabled(s, SenderStep(s)) && Apply(s, SenderStep(s)).sender.Free?
              && Apply(s, SenderStep(s)).receiver.Stopped?
  {
    order := OrderExists(s.sh.pending);
  }

  // ----- what decides over a call -----

  ghost predicate Happened(es: seq<Event>, i: nat, e: Event)
    requires i <= |es|
  {
    exists j :: 0 <= j < i && es[j] == e
  }

  ghost predicate TerminatedBefore(es: seq<Event>, i: nat)
    requires i <= |es|
  {
    exists j :: 0 <= j < i && es[j].Terminate?
  }

  lemma HappenedOneMore(es: seq<Event>, i: nat, e: Event)
    requires i < |es|
    ensures Happened(es, i + 1, e) <==> Happened(es, i, e) || es[i] == e
  {
  }

  lemma {:induction false} ClosingExactlyWhen(tr: seq<System>, es: seq<Event>, i: nat)
    requires Run(tr, es) && i < |tr|
    ensures tr[i].sh.closing <==> Happened(es, i, CloseClient)
  {
    if i > 0 {
      ClosingExactlyWhen(tr, es, i - 1);
      StepFlags(tr[i - 1], es[i - 1]);
      HappenedOneMore(es, i - 1, CloseClient);
    }
  }

  lemma TerminatedOneMore(es: seq<Event>, i: nat)
    requires i < |es|
    ensures TerminatedBefore(es, i + 1) <==> TerminatedBefore(es, i) || es[i].Terminate?
  {
  }

  lemma {:induction false} ShutdownExactlyWhen(tr: seq<System>, es: seq<Event>, i: nat)
    requires Run(tr, es) && i < |tr|
    ensures tr[i].sh.shutdown <==> TerminatedBefore(es, i)
  {
    if i > 0 {
      ShutdownExactlyWhen(tr, es, i - 1);
      StepFlags(tr[i - 1], es[i - 1]);
      TerminatedOneMore(es, i - 1);
    }
  }

  lemma StepFlags(s: System, e: Event)
    requires Enabled(s, e)
    ensures Apply(s, e).sh.closing <==> s.sh.closing || e.CloseClient?
    ensures Apply(s, e).sh.shutdown <==> s.sh.shutdown || e.Terminate?
  {
  }

  /** The call was sent while the client was neither closed nor terminated. */
  ghost predicate AcceptedBefore(es: seq<Event>, i: nat, c: CallId)
    requires i <= |es|
  {
    exists j :: 0 <= j < i && es[j] == Send(c) && !Happened(es, j, CloseClient) && !TerminatedBefore(es, j)
  }

  lemma AcceptedOneMore(es: seq<Event>, i: nat, c: CallId)
    requires i < |es|
    ensures AcceptedBefore(es, i + 1, c) <==>
            AcceptedBefore(es, i, c) || (es[i] == Send(c) && !Happened(es, i, CloseClient) && !TerminatedBefore(es, i))
  {
  }

  lemma StepRegisters(s: System, e: Event, c: CallId)
    requires Enabled(s, e)
    ensures c in Apply(s, e).registered <==> c in s.registered || (e == Send(c) && !s.sh.closing && !s.sh.shutdown)
    ensures c in Apply(s, e).cancelled <==> c in s.cancelled || (e.CancelCall? && e.call == c)
  {
  }

  /** A call gets a number if and only if it was sent before any Close and any termination. */
  lemma {:induction false} RegisteredExactlyWhen(tr: seq<System>, es: seq<Event>, i: nat, c: CallId)
    requires Run(tr, es) && i < |tr|
    ensures c in tr[i].registered <==> AcceptedBefore(es, i, c)
  {
    if i > 0 {
      RegisteredExactlyWhen(tr, es, i - 1, c);
      StepRegisters(tr[i - 1], es[i - 1], c);
      ClosingExactlyWhen(tr, es, i - 1);
      ShutdownExactlyWhen(tr, es, i - 1);
      AcceptedOneMore(es, i - 1, c);
    }
  }

  // ----- which numbers are pending -----

  /** The event takes the number out of `pending`. */
  predicate Removes(s: System, e: Event, q: nat) {
    || (e.Header? && e.q == q)
    || (e.CancelCall? && e.q == q)
    || (e.WriteError? && s.sender.Writing? && s.sender.q == q)
  }

  /** The event puts a call under the number. */
  predicate Registers(s: System, e: Event, q: nat) {
    e.Send? && !s.sh.closing && !s.sh.shutdown && q == |s.registered| + 1
  }

  lemma StepPends(s: System, e: Event, q: nat)
    requires Numbering(s) && Enabled(s, e)
    ensures q in Apply(s, e).sh.pending <==> (q in s.sh.pending && !Removes(s, e, q)) || Registers(s, e, q)
    ensures Registers(s, e, q) ==> Apply(s, e).sh.pending[q] == e.call && Apply(s, e).sender == Writing(e.call, q)
  {
  }

  ghost predicate PendingSince(tr: seq<System>, es: seq<Event>, i: nat, q: nat)
    requires i <= |es| < |tr|
  {
    exists k :: 0 <= k < i && Registers(tr[k], es[k], q) && forall j :: k < j < i ==> !Removes(tr[j], es[j], q)
  }

  lemma PendingSinceOneMore(tr: seq<System>, es: seq<Event>, i: nat, q: nat)
    requires i < |es| < |tr|
    ensures PendingSince(tr, es, i + 1, q) <==>
            (PendingSince(tr, es, i, q) && !Removes(tr[i], es[i], q)) || Registers(tr[i], es[i], q)
  {
    if PendingSince(tr, es, i, q) && !Removes(tr[i], es[i], q) {
      var k :| 0 <= k < i && Registers(tr[k], es[k], q) && forall j :: k < j < i ==> !Removes(tr[j], es[j], q);
      assert forall j :: k < j < i + 1 ==> !Removes(tr[j], es[j], q);
    }
  }

  /** A number is pending if and only if a call was registered under it and since then no header
      with it was read, its call was not cancelled, and its write did not fail. */
  lemma {:induction false} PendingExactlyWhen(tr: seq<System>, es: seq<Event>, i: nat, q: nat)
    requires Run(tr, es) && i < |tr|
    ensures q in tr[i].sh.pending <==> PendingSince(tr, es, i, q)
  {
    if i > 0 {
      PendingExactlyWhen(tr, es, i - 1, q);
      RunKeepsInv(tr, es, i - 1);
      StepPends(tr[i - 1], es[i - 1], q);
      PendingSinceOneMore(tr, es, i - 1, q);
    }
  }

  lemma Numbered(tr: seq<System>, es: seq<Event>, i: nat, j: nat)
    requires Run(tr, es) && i <= j < |tr|
    ensures Numbering(tr[j]) && |tr[i].registered| <= |tr[j].registered|
  {
    RunKeepsInv(tr, es, j);
    RegisteredGrows(tr, es, i, j);
  }

  lemma {:induction false} NotRegisteredAgain(tr: seq<System>, es: seq<Event>, i: nat, j: nat, q: nat)
    requires Run(tr, es) && i <= j < |tr| && 0 < q <= |tr[i].registered| && q !in tr[i].sh.pending
    ensures q !in tr[j].sh.pending
  {
    if i < j {
      NotRegisteredAgain(tr, es, i, j - 1, q);
      Numbered(tr, es, i, j - 1);
      StaysFree(tr[j - 1], es[j - 1], q);
    }
  }

  lemma StaysFree(s: System, e: Event, q: nat)
    requires Numbering(s) && Enabled(s, e) && q <= |s.registered| && q !in s.sh.pending
    ensures q !in Apply(s, e).sh.pending
  {
    StepPends(s, e, q);
  }

  /** A call that its context has cancelled is not answered later: its number is never pending again,
      and a header that carries it is read over. */
  lemma CancelledCallIsNotAnswered(tr: seq<System>, es: seq<Event>, i: nat, j: nat)
    requires Run(tr, es) && i < j < |tr| && es[i].CancelCall? && es[i].q > 0
    ensures es[i].q !in tr[j].sh.pending
    ensures j < |es| && es[j].Header? && es[j].q == es[i].q ==> !tr[j + 1].receiver.Holding?
  {
    RunKeepsInv(tr, es, i);
    StepPends(tr[i], es[i], es[i].q);
    RegisteredGrows(tr, es, i, i + 1);
    NotRegisteredAgain(tr, es, i + 1, j, es[i].q);
  }

  lemma ExtendRun(tr: seq<System>, es: seq<Event>, e: Event) returns (tr': seq<System>, es': seq<Event>)
    requires Run(tr, es) && Enabled(tr[|es|], e) && |Apply(tr[|es|], e).registered| < SEQ_LIMIT - 1
    ensures Run(tr', es') && es' == es + [e] && tr'[|es'|] == Apply(tr[|es|], e)
  {
    tr', es' := tr + [Apply(tr[|es|], e)], es + [e];
    forall i | 0 <= i < |es'|
      ensures Enabled(tr'[i], es'[i]) && tr'[i + 1] == Apply(tr'[i], es'[i])
    {
      assert i < |es| ==> Enabled(tr[i], es[i]) && tr[i + 1] == Apply(tr[i], es[i]);
    }
  }

  /** Such a run: a call is sent, cancelled, and answered too late. Its Done channel stays empty and
      the loop reads on. */
  lemma LateAnswerExample() returns (tr: seq<System>, es: seq<Event>)
    ensures Run(tr, es) && es == [Send(5), WriteOk, CancelCall(5, 1), Header(1, true)]
    ensures tr[|es|].completions == [] && tr[|es|].receiver == Reading && tr[|es|].cancelled == {5}
  {
    tr, es := [Start], [];
    tr, es := ExtendRun(tr, es, Send(5));
    tr, es := ExtendRun(tr, es, WriteOk);
    assert OwnSeq(tr[|es|], 5, 1);
    tr, es := ExtendRun(tr, es, CancelCall(5, 1));
    tr, es := ExtendRun(tr, es, Header(1, true));
  }

  // ----- why a call is completed -----

  /** The event sends to the Done channel of the call, for this reason: it is refused, its write has
      failed, the body of its answer has been read, or it is pending when the client terminates. */
  ghost predicate Completes(s: System, e: Event, k: Completion) {
    match k.why
    case Rejected => e == Send(k.call) && (s.sh.closing || s.sh.shutdown)
    case WriteFailed => e.FinishFailing? && s.sender == Failing(k.call)
    case Answered(q) => e.FinishAnswer? && s.receiver == Holding(k.call, q)
    case Terminated => e.Terminate? && exists q :: q in s.sh.pending && s.sh.pending[q] == k.call
  }

  lemma TerminateCompletes(s: System, order: seq<nat>, k: Completion)
    requires Enabled(s, Terminate(order))
    ensures k in TerminatedAll(s.sh.pending, order) <==>
            k.why.Terminated? && exists q :: q in s.sh.pending && s.sh.pending[q] == k.call
  {
    var all := TerminatedAll(s.sh.pending, order);
    if k.why.Terminated? && exists q :: q in s.sh.pending && s.sh.pending[q] == k.call {
      var q :| q in s.sh.pending && s.sh.pending[q] == k.call;
      assert q in order;
      var i :| 0 <= i < |order| && order[i] == q;
      assert all[i] == k;
    }
    if k in all {
      var i :| 0 <= i < |all| && all[i] == k;
      assert order[i] in order;
    }
  }

  lemma StepCompletes(s: System, e: Event, k: Completion)
    requires Enabled(s, e)
    ensures k in Apply(s, e).completions <==> k in s.completions || Completes(s, e, k)
  {
    if e.Terminate? {
      TerminateCompletes(s, e.order, k);
    }
  }

  ghost predicate CompletedBefore(tr: seq<System>, es: seq<Event>, i: nat, k: Completion)
    requires i <= |es| < |tr|
  {
    exists j :: 0 <= j < i && Completes(tr[j], es[j], k)
  }

  /** Each completion has its reason, and each reason its completion. */
  lemma {:induction false} CompletedExactlyWhen(tr: seq<System>, es: seq<Event>, i: nat, k: Completion)
    requires Run(tr, es) && i < |tr|
    ensures k in tr[i].completions <==> CompletedBefore(tr, es, i, k)
  {
    if i > 0 {
      CompletedExactlyWhen(tr, es, i - 1, k);
      StepCompletes(tr[i - 1], es[i - 1], k);
      assert CompletedBefore(tr, es, i, k) <==> CompletedBefore(tr, es, i - 1, k) || Completes(tr[i - 1], es[i - 1], k);
    }
  }

  /** What the sender and the receive loop have in hand stays there until they complete it, and
      they take it up exactly when its number was pending. */
  lemma HandsHold(s: System, e: Event, c: CallId, q: nat)
    requires Numbering(s) && Enabled(s, e)
    ensures Apply(s, e).receiver == Holding(c, q) <==>
            || (s.receiver == Holding(c, q) && !e.FinishAnswer?)
            || (e.Header? && e.q == q && q in s.sh.pending && s.sh.pending[q] == c)
    ensures Apply(s, e).sender == Failing(c) <==>
            || (s.sender == Failing(c) && !e.FinishFailing?)
            || (e.WriteError? && s.sender.q in s.sh.pending && s.sh.pending[s.sender.q] == c)
    ensures Apply(s, e).sender.Writing? <==>
            (s.sender.Writing? && !e.WriteOk? && !e.WriteError?) || (e.Send? && !s.sh.closing && !s.sh.shutdown)
  {
  }
}
