/**
 The GrowRPC connection pool (apps/pkg/GrowRPC/pool/pool.go).

 Every stretch of code that runs under the pool's mutex is one function on the fields that
 the mutex protects. The class `Pool` implements these regions on a Go slice (a backing
 array and a length). The transition system below interleaves the regions of any number of
 concurrent callers with their unlocked phases: waiting on the channel, calling the factory,
 and closing a stale connection in the middle of Get.
 */
module PoolModel {

  type Conn = nat
  type Getter = nat

  datatype Config = Config(maxIdle: int, maxActive: int)

  /** The capacity of waitCh. */
  function WaitCap(cfg: Config): nat {
    if cfg.maxActive <= 0 then 64 else cfg.maxActive
  }

  /** What the mutex protects, with the wait channel: the tokens in it and whether it is closed. */
  datatype Shared = Shared(closed: bool, idle: seq<Conn>, active: int, tokens: nat, waitClosed: bool)

  /** How a locked region of Get ends. */
  datatype Verdict = Refused | Discarded(conn: Conn) | Lent(conn: Conn) | Create | Park

  // ----- the locked regions -----

  /** One locked region of Get. It starts at the top of the loop, where `closed` is tested, or
      after a stale connection was closed, where it is not. `bad` is what is expired or
      unavailable at this moment. */
  function DecideGet(cfg: Config, s: Shared, fromTop: bool, bad: set<Conn>): (Shared, Verdict) {
    if fromTop && s.closed then (s, Refused)
    else if |s.idle| > 0 then
      var c := s.idle[|s.idle| - 1];
      var popped := s.(idle := s.idle[..|s.idle| - 1]);
      if c in bad then (popped, Discarded(c)) else (popped.(active := s.active + 1), Lent(c))
    else if cfg.maxActive == 0 || s.active < cfg.maxActive then (s.(active := s.active + 1), Create)
    else (s, Park)
  }

  /** The non-blocking send of one token. The flag tells whether it panics, which a send on a
      closed channel does. */
  function Notified(cfg: Config, s: Shared): (Shared, bool) {
    if s.waitClosed then (s, true)
    else if s.tokens < WaitCap(cfg) then (s.(tokens := s.tokens + 1), false)
    else (s, false)
  }

  predicate KeptByPut(cfg: Config, s: Shared, available: bool) {
    !s.closed && available && |s.idle| < cfg.maxIdle
  }

  function PutRegion(cfg: Config, s: Shared, c: Conn, available: bool): (Shared, bool) {
    Notified(cfg, s.(active := s.active - 1,
                     idle := if KeptByPut(cfg, s, available) then s.idle + [c] else s.idle))
  }

  function Healthy(cs: seq<Conn>, bad: set<Conn>): seq<Conn> {
    if cs == [] then []
    else Healthy(cs[..|cs| - 1], bad) + if cs[|cs| - 1] in bad then [] else [cs[|cs| - 1]]
  }

  function Stale(cs: seq<Conn>, bad: set<Conn>): seq<Conn> {
    if cs == [] then []
    else Stale(cs[..|cs| - 1], bad) + if cs[|cs| - 1] in bad then [cs[|cs| - 1]] else []
  }

  function CleanRegion(s: Shared, bad: set<Conn>): Shared {
    if s.closed then s else s.(idle := Healthy(s.idle, bad))
  }

  function CloseRegion(s: Shared): Shared {
    s.(closed := true, idle := [])
  }

  lemma FilterOneMore(cs: seq<Conn>, i: nat, bad: set<Conn>)
    requires i < |cs|
    ensures Healthy(cs[..i + 1], bad) == Healthy(cs[..i], bad) + if cs[i] in bad then [] else [cs[i]]
    ensures Stale(cs[..i + 1], bad) == Stale(cs[..i], bad) + if cs[i] in bad then [cs[i]] else []
  {
    assert cs[..i + 1][..i] == cs[..i];
  }

  // ----- the implementation on a slice -----

  class Pool {
    const cfg: Config
    var closed: bool
    var slots: array<Conn>
    var n: nat
    var active: int
    var tokens: nat
    var waitClosed: bool

    ghost predicate Valid()
      reads this
    {
      n <= slots.Length
    }

    ghost function View(): Shared
      requires Valid()
      reads this, slots
    {
      Shared(closed, slots[..n], active, tokens, waitClosed)
    }

    constructor (cfg: Config)
      ensures Valid() && this.cfg == cfg && fresh(slots)
      ensures View() == Shared(false, [], 0, 0, false)
    {
      this.cfg := cfg;
      closed, n, active, tokens, waitClosed := false, 0, 0, 0, false;
      slots := new Conn[0];
    }

    method GetRegion(fromTop: bool, bad: set<Conn>) returns (v: Verdict)
      requires Valid()
      modifies this`n, this`active
      ensures Valid()
      ensures (View(), v) == DecideGet(cfg, old(View()), fromTop, bad)
    {
      if fromTop && closed {
        return Refused;
      }
      if n > 0 {
        var c := slots[n - 1];
        n := n - 1;
        assert slots[..n] == old(slots[..n])[..old(n) - 1];
        if c in bad {
          return Discarded(c);
        }
        active := active + 1;
        return Lent(c);
      }
      if cfg.maxActive == 0 || active < cfg.maxActive {
        active := active + 1;
        return Create;
      }
      return Park;
    }

    method Notify() returns (panics: bool)
      requires Valid()
      modifies this`tokens
      ensures Valid()
      ensures (View(), panics) == Notified(cfg, old(View()))
    {
      if waitClosed {
        return true;
      }
      if tokens < WaitCap(cfg) {
        tokens := tokens + 1;
      }
      return false;
    }

    /** Go's append: writes into the spare capacity, or moves to a larger array. */
    method AppendIdle(c: Conn)
      requires Valid()
      modifies this`slots, this`n, slots
      ensures Valid() && (slots == old(slots) || fresh(slots))
      ensures View() == old(View()).(idle := old(View()).idle + [c])
    {
      if n == slots.Length {
        var bigger := new Conn[2 * n + 1];
        for i := 0 to n
          invariant slots == old(slots) && n == old(n) && slots[..] == old(slots[..])
          invariant bigger[..i] == slots[..i]
        {
          bigger[i] := slots[i];
        }
        slots := bigger;
      }
      slots[n] := c;
      n := n + 1;
      assert slots[..n] == old(slots[..n]) + [c];
    }

    method Put(c: Conn, available: bool) returns (panics: bool)
      requires Valid()
      modifies this`active, this`slots, this`n, this`tokens, slots
      ensures Valid() && (slots == old(slots) || fresh(slots))
      ensures (View(), panics) == PutRegion(cfg, old(View()), c, available)
    {
      active := active - 1;
      if closed || !available {
        panics := Notify();
        return;
      }
      if n < cfg.maxIdle {
        AppendIdle(c);
        panics := Notify();
        return;
      }
      panics := Notify();
    }

    /** The in-place filter: `kept` shares the array that is being read. */
    method CleanIdle(bad: set<Conn>) returns (toClose: seq<Conn>)
      requires Valid()
      modifies this`n, slots
      ensures Valid()
      ensures View() == CleanRegion(old(View()), bad)
      ensures toClose == if closed then [] else Stale(old(View()).idle, bad)
    {
      toClose := [];
      if closed {
        return;
      }
      ghost var was := slots[..n];
      var kept := 0;
      for i := 0 to n
        invariant n == old(n) && n <= slots.Length && kept <= i
        invariant forall j :: i <= j < n ==> slots[j] == was[j]
        invariant slots[..kept] == Healthy(was[..i], bad)
        invariant toClose == Stale(was[..i], bad)
      {
        var c := slots[i];
        FilterOneMore(was, i, bad);
        if c in bad {
          toClose := toClose + [c];
        } else {
          ghost var done := slots[..kept];
          slots[kept] := c;
          kept := kept + 1;
          assert slots[..kept] == done + [c];
        }
      }
      assert was[..n] == was;
      n := kept;
    }

    method CloseBegin() returns (toClose: seq<Conn>, ok: bool)
      requires Valid()
      modifies this`closed, this`slots, this`n
      ensures Valid() && (slots == old(slots) || fresh(slots))
      ensures ok == !old(closed)
      ensures View() == if ok then CloseRegion(old(View())) else old(View())
      ensures toClose == if ok then old(View()).idle else []
    {
      if closed {
        return [], false;
      }
      closed := true;
      toClose := slots[..n];
      slots := new Conn[0];
      n := 0;
      ok := true;
    }

    /** The locked region after a failed factory call: the slot is given back, nobody is told. */
    method FactoryFailed()
      requires Valid()
      modifies this`active
      ensures Valid() && View() == old(View()).(active := old(active) - 1)
    {
      active := active - 1;
    }

    method CloseFinish()
      requires Valid()
      modifies this`waitClosed
      ensures Valid() && View() == old(View()).(waitClosed := true)
    {
      waitClosed := true;
    }
  }

  // ----- the transition system -----

  /** The pool with its callers. `arriving` and `woken` callers are about to take the lock: a woken
      one has taken a token from waitCh and not decided again since. Those in `window` do so
      after closing a stale connection, not from the top of the loop. */
  datatype System = System(
    sh: Shared,
    arriving: set<Getter>, woken: set<Getter>, window: set<Getter>,
    creating: set<Getter>, parked: set<Getter>,
    lent: set<Conn>, removed: set<Conn>,
    factoryErrors: nat, panics: nat)

  const Start: System :=
    System(Shared(false, [], 0, 0, false), {}, {}, {}, {}, {}, {}, {}, 0, 0)

  datatype Event =
    | Enter(g: Getter)
    | Decide(g: Getter, bad: set<Conn>)
    | FactoryOk(g: Getter, conn: Conn)
    | FactoryFail(g: Getter)
    | Wake(g: Getter)
    | Cancel(g: Getter)
    | Return(conn: Conn, available: bool)
    | Clean(bad: set<Conn>)
    | BeginClose
    | FinishClose

  predicate Enabled(s: System, e: Event) {
    match e
    case Enter(g) => g !in s.arriving + s.woken + s.creating + s.parked
    case Decide(g, _) => g in s.arriving + s.woken
    case FactoryOk(g, c) => g in s.creating && c !in s.sh.idle && c !in s.lent + s.removed
    case FactoryFail(g) => g in s.creating
    case Wake(g) => g in s.parked && (s.sh.tokens > 0 || s.sh.waitClosed)
    case Cancel(g) => g in s.parked
    case Return(c, _) => c in s.lent
    case Clean(_) => true
    case BeginClose => !s.sh.closed
    case FinishClose => s.sh.closed && !s.sh.waitClosed
  }

  function Elems(cs: seq<Conn>): set<Conn> { set c | c in cs }

  /** The caller has left the places from which it takes the lock. */
  function Decided(s: System, g: Getter): System {
    s.(arriving := s.arriving - {g}, woken := s.woken - {g}, window := s.window - {g})
  }

  function AfterDecide(cfg: Config, s: System, g: Getter, bad: set<Conn>): System {
    var (sh, v) := DecideGet(cfg, s.sh, g !in s.window, bad);
    var t := Decided(s, g).(sh := sh);
    match v
    case Refused => t
    case Discarded(c) => s.(sh := sh, window := s.window + {g}, removed := s.removed + {c})
    case Lent(c) => t.(lent := s.lent + {c})
    case Create => t.(creating := s.creating + {g})
    case Park => t.(parked := s.parked + {g})
  }

  function AfterReturn(cfg: Config, s: System, c: Conn, available: bool): System {
    var (sh, panics) := PutRegion(cfg, s.sh, c, available);
    s.(sh := sh, lent := s.lent - {c},
       removed := if KeptByPut(cfg, s.sh, available) then s.removed else s.removed + {c},
       panics := s.panics + if panics then 1 else 0)
  }

  function AfterWake(s: System, g: Getter): System {
    s.(sh := s.sh.(tokens := if s.sh.tokens > 0 then s.sh.tokens - 1 else 0),
       parked := s.parked - {g}, woken := s.woken + {g})
  }

  function Apply(cfg: Config, s: System, e: Event): System
    requires Enabled(s, e)
  {
    match e
    case Enter(g) => s.(arriving := s.arriving + {g})
    case Decide(g, bad) => AfterDecide(cfg, s, g, bad)
    case FactoryOk(g, c) => s.(creating := s.creating - {g}, lent := s.lent + {c})
    case FactoryFail(g) => s.(creating := s.creating - {g}, sh := s.sh.(active := s.sh.active - 1),
                              factoryErrors := s.factoryErrors + 1)
    case Wake(g) => AfterWake(s, g)
    case Cancel(g) => s.(parked := s.parked - {g})
    case Return(c, available) => AfterReturn(cfg, s, c, available)
    case Clean(bad) =>
      var sh := CleanRegion(s.sh, bad);
      s.(sh := sh, removed := s.removed + (Elems(s.sh.idle) - Elems(sh.idle)))
    case BeginClose => s.(sh := CloseRegion(s.sh), removed := s.removed + Elems(s.sh.idle))
    case FinishClose => s.(sh := s.sh.(waitClosed := true))
  }

  /** A run: the states it passes through and the events between them. */
  ghost predicate Run(cfg: Config, tr: seq<System>, es: seq<Event>) {
    && |tr| == |es| + 1
    && tr[0] == Start
    && forall i :: 0 <= i < |es| ==> Enabled(tr[i], es[i]) && tr[i + 1] == Apply(cfg, tr[i], es[i])
  }

  // ----- the invariant -----

  predicate Distinct(cs: seq<Conn>) {
    forall i, j :: 0 <= i < j < |cs| ==> cs[i] != cs[j]
  }

  /** A connection is idle (once), lent or removed, and never two of these. */
  predicate Ownership(s: System) {
    && Distinct(s.sh.idle)
    && s.lent !! s.removed
    && (forall c :: c in s.sh.idle ==> c !in s.lent && c !in s.removed)
  }

  /** A caller is at one place only. */
  predicate CallersApart(s: System) {
    && s.arriving !! s.woken !! s.creating !! s.parked
    && s.window <= s.arriving + s.woken
  }

  predicate Accounting(cfg: Config, s: System) {
    && s.sh.active == |s.lent| + |s.creating|
    && (cfg.maxActive > 0 ==> s.sh.active + |s.sh.idle| <= cfg.maxActive)
    && |s.sh.idle| <= (if cfg.maxIdle > 0 then cfg.maxIdle else 0)
    && s.sh.tokens <= WaitCap(cfg)
  }

  predicate Closing(s: System) {
    && (s.sh.closed ==> s.sh.idle == [])
    && (s.sh.waitClosed ==> s.sh.closed)
    && (s.panics > 0 ==> s.sh.waitClosed)
  }

  /** While somebody waits, every free slot is announced by a token or by a woken caller that
      has yet to decide. `lost` is the number of announcements that may be missing. */
  predicate SlotsAnnounced(cfg: Config, s: System, lost: nat) {
    cfg.maxActive > 0 && !s.sh.closed && s.parked != {} ==>
      cfg.maxActive - s.sh.active <= s.sh.tokens + |s.woken| + lost
  }

  predicate Inv(cfg: Config, s: System) {
    && Ownership(s)
    && CallersApart(s)
    && Accounting(cfg, s)
    && Closing(s)
    && SlotsAnnounced(cfg, s, s.factoryErrors)
  }

  // ----- Healthy is the order-preserving filter -----

  lemma {:induction false} HealthyMembers(cs: seq<Conn>, bad: set<Conn>)
    ensures |Healthy(cs, bad)| <= |cs|
    ensures forall c :: c in Healthy(cs, bad) <==> c in cs && c !in bad
  {
    if cs != [] {
      HealthyMembers(cs[..|cs| - 1], bad);
      assert cs == cs[..|cs| - 1] + [cs[|cs| - 1]];
    }
  }

  lemma {:induction false} HealthyDistinct(cs: seq<Conn>, bad: set<Conn>)
    requires Distinct(cs)
    ensures Distinct(Healthy(cs, bad))
  {
    if cs != [] {
      HealthyDistinct(cs[..|cs| - 1], bad);
      HealthyMembers(cs[..|cs| - 1], bad);
      assert cs[|cs| - 1] !in cs[..|cs| - 1];
    }
  }

  // ----- every event keeps each part of the invariant -----

  lemma DecideKeepsOwnership(cfg: Config, s: System, g: Getter, bad: set<Conn>)
    requires Ownership(s)
    ensures Ownership(AfterDecide(cfg, s, g, bad))
  {
    if |s.sh.idle| > 0 {
      var k := |s.sh.idle| - 1;
      assert s.sh.idle[k] !in s.sh.idle[..k];
      assert forall c :: c in s.sh.idle[..k] ==> c in s.sh.idle;
    }
  }

  lemma ReturnKeepsOwnership(cfg: Config, s: System, c: Conn, available: bool)
    requires Ownership(s) && c in s.lent
    ensures Ownership(AfterReturn(cfg, s, c, available))
  {
  }

  lemma CleanKeepsOwnership(cfg: Config, s: System, bad: set<Conn>)
    requires Ownership(s)
    ensures Ownership(Apply(cfg, s, Clean(bad)))
  {
    HealthyMembers(s.sh.idle, bad);
    HealthyDistinct(s.sh.idle, bad);
  }

  lemma StepKeepsOwnership(cfg: Config, s: System, e: Event)
    requires Ownership(s) && Enabled(s, e)
    ensures Ownership(Apply(cfg, s, e))
  {
    match e
    case Decide(g, bad) => DecideKeepsOwnership(cfg, s, g, bad);
    case Return(c, available) => ReturnKeepsOwnership(cfg, s, c, available);
    case Clean(bad) => CleanKeepsOwnership(cfg, s, bad);
    case _ =>
  }

  lemma StepKeepsCallersApart(cfg: Config, s: System, e: Event)
    requires CallersApart(s) && Enabled(s, e)
    ensures CallersApart(Apply(cfg, s, e))
  {
    if e.Decide? {
      var (_, v) := DecideGet(cfg, s.sh, e.g !in s.window, e.bad);
      assert v.Discarded? || v.Park? || v.Create? || v.Lent? || v.Refused?;
    }
  }

  lemma DecideKeepsAccounting(cfg: Config, s: System, g: Getter, bad: set<Conn>)
    requires Accounting(cfg, s) && g !in s.creating && forall c :: c in s.sh.idle ==> c !in s.lent
    ensures Accounting(cfg, AfterDecide(cfg, s, g, bad))
  {
    var (_, v) := DecideGet(cfg, s.sh, g !in s.window, bad);
    match v
    case Lent(c) => assert c in s.sh.idle; assert |s.lent + {c}| == |s.lent| + 1;
    case Create => assert |s.creating + {g}| == |s.creating| + 1;
    case _ =>
  }

  lemma ReturnKeepsAccounting(cfg: Config, s: System, c: Conn, available: bool)
    requires Accounting(cfg, s) && c in s.lent
    ensures Accounting(cfg, AfterReturn(cfg, s, c, available))
  {
    assert |s.lent - {c}| == |s.lent| - 1;
  }

  lemma FactoryKeepsAccounting(cfg: Config, s: System, e: Event)
    requires Accounting(cfg, s) && Enabled(s, e) && (e.FactoryOk? || e.FactoryFail?)
    ensures Accounting(cfg, Apply(cfg, s, e))
  {
    assert |s.creating - {e.g}| == |s.creating| - 1;
    if e.FactoryOk? {
      assert |s.lent + {e.conn}| == |s.lent| + 1;
    }
  }

  lemma StepKeepsAccounting(cfg: Config, s: System, e: Event)
    requires Ownership(s) && CallersApart(s) && Accounting(cfg, s) && Enabled(s, e)
    ensures Accounting(cfg, Apply(cfg, s, e))
  {
    match e
    case Decide(g, bad) => DecideKeepsAccounting(cfg, s, g, bad);
    case Return(c, available) => ReturnKeepsAccounting(cfg, s, c, available);
    case FactoryOk(_, _) => FactoryKeepsAccounting(cfg, s, e);
    case FactoryFail(_) => FactoryKeepsAccounting(cfg, s, e);
    case Clean(bad) => HealthyMembers(s.sh.idle, bad);
    case _ =>
  }

  lemma StepKeepsClosing(cfg: Config, s: System, e: Event)
    requires Closing(s) && Enabled(s, e)
    ensures Closing(Apply(cfg, s, e))
  {
    HealthyMembers(s.sh.idle, {});
  }

  lemma DecideKeepsAnnounced(cfg: Config, s: System, g: Getter, bad: set<Conn>, lost: nat)
    requires CallersApart(s) && Accounting(cfg, s) && g in s.arriving + s.woken
    requires SlotsAnnounced(cfg, s, lost)
    ensures SlotsAnnounced(cfg, AfterDecide(cfg, s, g, bad), lost)
  {
    var (sh, v) := DecideGet(cfg, s.sh, g !in s.window, bad);
    assert |s.woken - {g}| >= |s.woken| - 1 by {
      if g !in s.woken {
        assert s.woken - {g} == s.woken;
      }
    }
    if v.Park? {
      assert sh.active >= cfg.maxActive;
    }
  }

  /** The heart of the wake-up argument: only a failing factory call frees a slot in silence. */
  lemma StepKeepsAnnounced(cfg: Config, s: System, e: Event, lost: nat)
    requires CallersApart(s) && Accounting(cfg, s) && Closing(s) && Enabled(s, e)
    requires SlotsAnnounced(cfg, s, lost)
    ensures SlotsAnnounced(cfg, Apply(cfg, s, e), if e.FactoryFail? then lost + 1 else lost)
  {
    match e
    case Decide(g, bad) => DecideKeepsAnnounced(cfg, s, g, bad, lost);
    case Return(c, available) => assert |s.lent - {c}| == |s.lent| - 1;
    case Wake(g) => assert |s.woken + {g}| == |s.woken| + 1;
    case _ =>
  }

  lemma StepCountsFailures(cfg: Config, s: System, e: Event)
    requires Enabled(s, e)
    ensures Apply(cfg, s, e).factoryErrors == if e.FactoryFail? then s.factoryErrors + 1 else s.factoryErrors
  {
  }

  lemma StepKeepsInv(cfg: Config, s: System, e: Event)
    requires Inv(cfg, s) && Enabled(s, e)
    ensures Inv(cfg, Apply(cfg, s, e))
  {
    StepKeepsOwnership(cfg, s, e);
    StepKeepsCallersApart(cfg, s, e);
    StepKeepsAccounting(cfg, s, e);
    StepKeepsClosing(cfg, s, e);
    StepKeepsAnnounced(cfg, s, e, s.factoryErrors);
    StepCountsFailures(cfg, s, e);
  }

  /** In every reachable state the invariant holds. */
  lemma {:induction false} RunKeepsInv(cfg: Config, tr: seq<System>, es: seq<Event>, i: nat)
    requires Run(cfg, tr, es) && i < |tr|
    ensures Inv(cfg, tr[i])
  {
    if i > 0 {
      RunKeepsInv(cfg, tr, es, i - 1);
      StepKeepsInv(cfg, tr[i - 1], es[i - 1]);
    }
  }

  // ----- what the invariant gives for whole runs -----

  /** No wake-up is lost before Close in a run whose factory calls succeed: while a caller waits,
      there are at least as many tokens and undecided woken callers as free slots. */
  lemma NoLostWakeup(cfg: Config, tr: seq<System>, es: seq<Event>, i: nat)
    requires Run(cfg, tr, es) && i < |tr| && cfg.maxActive > 0
    requires forall j :: 0 <= j < i ==> !es[j].FactoryFail?
    ensures SlotsAnnounced(cfg, tr[i], 0)
    ensures !tr[i].sh.closed && tr[i].parked != {} && (tr[i].sh.idle != [] || tr[i].sh.active < cfg.maxActive) ==>
              tr[i].sh.tokens > 0 || tr[i].woken != {}
  {
    RunKeepsInv(cfg, tr, es, i);
    FailuresCounted(cfg, tr, es, i);
  }

  lemma {:induction false} FailuresCounted(cfg: Config, tr: seq<System>, es: seq<Event>, i: nat)
    requires Run(cfg, tr, es) && i < |tr|
    ensures tr[i].factoryErrors == 0 <==> forall j :: 0 <= j < i ==> !es[j].FactoryFail?
  {
    if i > 0 {
      FailuresCounted(cfg, tr, es, i - 1);
      StepCountsFailures(cfg, tr[i - 1], es[i - 1]);
    }
  }

  /** A slot may be given back in silence: nobody waits, or there is an announcement to spare. */
  predicate SilenceIsHarmless(cfg: Config, s: System) {
    || cfg.maxActive <= 0 || s.sh.closed || s.parked == {}
    || cfg.maxActive - s.sh.active < s.sh.tokens + |s.woken|
  }

  ghost predicate FailuresHarmless(cfg: Config, tr: seq<System>, es: seq<Event>, i: nat)
    requires i <= |es| < |tr|
  {
    forall j :: 0 <= j < i && es[j].FactoryFail? ==> SilenceIsHarmless(cfg, tr[j])
  }

  ghost predicate AlwaysAnnounced(cfg: Config, tr: seq<System>, i: nat)
    requires i < |tr|
  {
    forall j :: 0 <= j <= i ==> SlotsAnnounced(cfg, tr[j], 0)
  }

  lemma StepAnnouncesExactlyWhen(cfg: Config, s: System, e: Event)
    requires Inv(cfg, s) && Enabled(s, e) && SlotsAnnounced(cfg, s, 0)
    ensures SlotsAnnounced(cfg, Apply(cfg, s, e), 0) <==> (e.FactoryFail? ==> SilenceIsHarmless(cfg, s))
  {
    StepKeepsAnnounced(cfg, s, e, 0);
  }

  /** No wake-up is lost in a run, factory errors or not, if and only if every failing factory call
      came while the pool was closed, nobody waited, or an announcement was to spare. */
  lemma {:induction false} NoLostWakeupExactlyWhen(cfg: Config, tr: seq<System>, es: seq<Event>, i: nat)
    requires Run(cfg, tr, es) && i < |tr|
    ensures AlwaysAnnounced(cfg, tr, i) <==> FailuresHarmless(cfg, tr, es, i)
  {
    if i > 0 {
      NoLostWakeupExactlyWhen(cfg, tr, es, i - 1);
      assert AlwaysAnnounced(cfg, tr, i) <==> AlwaysAnnounced(cfg, tr, i - 1) && SlotsAnnounced(cfg, tr[i], 0);
      if AlwaysAnnounced(cfg, tr, i - 1) {
        RunKeepsInv(cfg, tr, es, i - 1);
        StepAnnouncesExactlyWhen(cfg, tr[i - 1], es[i - 1]);
      }
    }
  }

  /** One slot: the first caller creates, the second waits, the factory fails. The slot is free,
      the second caller waits on, and no token or woken caller is there to tell it: it waits until
      some later caller puts a connection back. */
  lemma LostWakeupExample() returns (cfg: Config, tr: seq<System>, es: seq<Event>)
    ensures Run(cfg, tr, es) && cfg.maxActive == 1
    ensures var s := tr[|es|];
            && s.parked == {1} && s.sh.active == 0 && s.sh.tokens == 0
            && s.woken == s.arriving == s.creating == {}
            && s.lent == {}
            && !SlotsAnnounced(cfg, s, 0)
  {
    cfg := Config(5, 1);
    var s0 := Start;
    var s1 := Apply(cfg, s0, Enter(0));
    var s2 := Apply(cfg, s1, Decide(0, {}));
    var s3 := Apply(cfg, s2, Enter(1));
    var s4 := Apply(cfg, s3, Decide(1, {}));
    var s5 := Apply(cfg, s4, FactoryFail(0));
    tr := [s0, s1, s2, s3, s4, s5];
    es := [Enter(0), Decide(0, {}), Enter(1), Decide(1, {}), FactoryFail(0)];
  }

  lemma StepOnlyRemoves(cfg: Config, s: System, e: Event)
    requires Enabled(s, e)
    ensures s.removed <= Apply(cfg, s, e).removed
    ensures s.sh.closed ==> Apply(cfg, s, e).sh.closed
  {
  }

  lemma {:induction false} RemovedGrows(cfg: Config, tr: seq<System>, es: seq<Event>, i: nat, j: nat)
    requires Run(cfg, tr, es) && i <= j < |tr|
    ensures tr[i].removed <= tr[j].removed
    ensures tr[i].sh.closed ==> tr[j].sh.closed
  {
    if i < j {
      RemovedGrows(cfg, tr, es, i, j - 1);
      StepOnlyRemoves(cfg, tr[j - 1], es[j - 1]);
    }
  }

  /** Close is final: the idle stack stays empty, and a removed connection never comes back. */
  lemma RemovalIsFinal(cfg: Config, tr: seq<System>, es: seq<Event>, i: nat, j: nat)
    requires Run(cfg, tr, es) && i <= j < |tr|
    ensures tr[i].sh.closed ==> tr[j].sh.closed && tr[j].sh.idle == []
    ensures forall c :: c in tr[i].removed ==> c !in tr[j].lent && c !in tr[j].sh.idle
  {
    RemovedGrows(cfg, tr, es, i, j);
    RunKeepsInv(cfg, tr, es, j);
  }

  ghost predicate MadeBefore(es: seq<Event>, i: nat, c: Conn)
    requires i <= |es|
  {
    exists j :: 0 <= j < i && es[j].FactoryOk? && es[j].conn == c
  }

  predicate Held(s: System, c: Conn) {
    c in s.sh.idle || c in s.lent || c in s.removed
  }

  lemma StepConserves(cfg: Config, s: System, e: Event, c: Conn)
    requires Enabled(s, e)
    ensures Held(Apply(cfg, s, e), c) <==> Held(s, c) || (e.FactoryOk? && e.conn == c)
  {
    match e
    case Clean(bad) => HealthyMembers(s.sh.idle, bad);
    case Decide(g, bad) =>
      if |s.sh.idle| > 0 {
        var k := |s.sh.idle| - 1;
        assert s.sh.idle == s.sh.idle[..k] + [s.sh.idle[k]];
      }
    case _ =>
  }

  /** Conservation: what the factory made is idle, lent or removed, and nothing else is. */
  lemma {:induction false} ConnectionsConserved(cfg: Config, tr: seq<System>, es: seq<Event>, i: nat, c: Conn)
    requires Run(cfg, tr, es) && i < |tr|
    ensures MadeBefore(es, i, c) <==> Held(tr[i], c)
  {
    if i > 0 {
      ConnectionsConserved(cfg, tr, es, i - 1, c);
      StepConserves(cfg, tr[i - 1], es[i - 1], c);
      assert MadeBefore(es, i, c) <==> MadeBefore(es, i - 1, c) || (es[i - 1].FactoryOk? && es[i - 1].conn == c);
    }
  }

  ghost predicate FinishedBefore(es: seq<Event>, i: nat)
    requires i <= |es|
  {
    exists j :: 0 <= j < i && es[j].FinishClose?
  }

  lemma {:induction false} ChannelClosedExactlyAfterFinish(cfg: Config, tr: seq<System>, es: seq<Event>, i: nat)
    requires Run(cfg, tr, es) && i < |tr|
    ensures tr[i].sh.waitClosed <==> FinishedBefore(es, i)
  {
    if i > 0 {
      ChannelClosedExactlyAfterFinish(cfg, tr, es, i - 1);
      assert tr[i] == Apply(cfg, tr[i - 1], es[i - 1]);
      assert FinishedBefore(es, i) <==> FinishedBefore(es, i - 1) || es[i - 1].FinishClose?;
    }
  }

  ghost predicate ReturnedAfterFinish(es: seq<Event>, i: nat)
    requires i <= |es|
  {
    exists k :: 0 <= k < i && es[k].Return? && FinishedBefore(es, k)
  }

  lemma ReturnedOneMore(es: seq<Event>, i: nat)
    requires i < |es|
    ensures ReturnedAfterFinish(es, i + 1) <==> ReturnedAfterFinish(es, i) || (es[i].Return? && FinishedBefore(es, i))
  {
  }

  lemma StepPanics(cfg: Config, s: System, e: Event)
    requires Enabled(s, e)
    ensures Apply(cfg, s, e).panics > 0 <==> s.panics > 0 || (e.Return? && s.sh.waitClosed)
  {
  }

  /** Put panics exactly when Close has already closed the wait channel. */
  lemma {:induction false} PanicsExactlyOnReturnAfterClose(cfg: Config, tr: seq<System>, es: seq<Event>, i: nat)
    requires Run(cfg, tr, es) && i < |tr|
    ensures tr[i].panics > 0 <==> ReturnedAfterFinish(es, i)
  {
    if i > 0 {
      PanicsExactlyOnReturnAfterClose(cfg, tr, es, i - 1);
      ChannelClosedExactlyAfterFinish(cfg, tr, es, i - 1);
      StepPanics(cfg, tr[i - 1], es[i - 1]);
      ReturnedOneMore(es, i - 1);
    }
  }

  /** A caller still holds a connection when the pool is closed, and puts it back afterwards. */
  lemma PanicExample() returns (cfg: Config, tr: seq<System>, es: seq<Event>)
    ensures Run(cfg, tr, es) && tr[|es|].panics == 1
  {
    cfg := Config(5, 1);
    var s0 := Start;
    var s1 := Apply(cfg, s0, Enter(0));
    var s2 := Apply(cfg, s1, Decide(0, {}));
    var s3 := Apply(cfg, s2, FactoryOk(0, 7));
    var s4 := Apply(cfg, s3, BeginClose);
    var s5 := Apply(cfg, s4, FinishClose);
    var s6 := Apply(cfg, s5, Return(7, true));
    tr := [s0, s1, s2, s3, s4, s5, s6];
    es := [Enter(0), Decide(0, {}), FactoryOk(0, 7), BeginClose, FinishClose, Return(7, true)];
  }

  /** Last in, first out: a connection that Put keeps is the next one lent while it is healthy, and
      the two regions cancel out but for the token. */
  lemma PutThenGetCancels(cfg: Config, s: Shared, c: Conn, available: bool, bad: set<Conn>, fromTop: bool)
    requires KeptByPut(cfg, s, available) && c !in bad
    ensures var put := PutRegion(cfg, s, c, available).0;
            DecideGet(cfg, put, fromTop, bad) == (s.(tokens := put.tokens), Lent(c))
  {
    assert (s.idle + [c])[..|s.idle|] == s.idle;
  }

  // ----- what Get and Put decide -----

  /** Get fails at once: the pool is closed and the caller is at the top of its loop. */
  predicate TurnedAway(s: System, g: Getter) { s.sh.closed && g !in s.window }

  predicate TopIs(s: System, c: Conn) { |s.sh.idle| > 0 && s.sh.idle[|s.sh.idle| - 1] == c }

  /** A decision of Get, by what becomes of the caller and of every connection. */
  lemma GetDecides(cfg: Config, s: System, g: Getter, bad: set<Conn>)
    requires CallersApart(s) && Enabled(s, Decide(g, bad))
    ensures var t := AfterDecide(cfg, s, g, bad);
            && (g in t.parked <==>
                  !TurnedAway(s, g) && s.sh.idle == [] && cfg.maxActive != 0 && s.sh.active >= cfg.maxActive)
            && (g in t.creating <==>
                  !TurnedAway(s, g) && s.sh.idle == [] && (cfg.maxActive == 0 || s.sh.active < cfg.maxActive))
            && (g in t.arriving + t.woken <==> !TurnedAway(s, g) && exists c :: TopIs(s, c) && c in bad)
            && (g in t.window <==> g in t.arriving + t.woken)
  {
    if |s.sh.idle| > 0 {
      assert TopIs(s, s.sh.idle[|s.sh.idle| - 1]);
    }
  }

  lemma GetMovesConn(cfg: Config, s: System, g: Getter, bad: set<Conn>, c: Conn)
    requires Ownership(s) && Enabled(s, Decide(g, bad))
    ensures var t := AfterDecide(cfg, s, g, bad);
            && (c in t.lent <==> c in s.lent || (!TurnedAway(s, g) && TopIs(s, c) && c !in bad))
            && (c in t.removed <==> c in s.removed || (!TurnedAway(s, g) && TopIs(s, c) && c in bad))
            && (c in t.sh.idle <==> c in s.sh.idle && (TurnedAway(s, g) || !TopIs(s, c)))
  {
    if |s.sh.idle| > 0 {
      var k := |s.sh.idle| - 1;
      assert s.sh.idle == s.sh.idle[..k] + [s.sh.idle[k]];
      assert s.sh.idle[k] !in s.sh.idle[..k];
    }
  }

  /** In every run Get lends only the connection on top of the stack, and only if it is neither
      expired nor unavailable at that moment; one that is goes to be closed. Nobody is turned away
      from an open pool, and everybody from a closed one. */
  lemma GetLendsOnlyHealthy(cfg: Config, tr: seq<System>, es: seq<Event>, i: nat, c: Conn)
    requires Run(cfg, tr, es) && i < |es| && es[i].Decide?
    ensures c in tr[i + 1].lent && c !in tr[i].lent <==>
            !TurnedAway(tr[i], es[i].g) && TopIs(tr[i], c) && c !in es[i].bad
    ensures c in tr[i + 1].removed && c !in tr[i].removed <==>
            !TurnedAway(tr[i], es[i].g) && TopIs(tr[i], c) && c in es[i].bad
  {
    RunKeepsInv(cfg, tr, es, i);
    GetMovesConn(cfg, tr[i], es[i].g, es[i].bad, c);
  }

  /** A caller waits only when there is no idle connection and all slots are taken, and it makes a
      connection only when there is no idle one and a slot is free. */
  lemma GetWaitsOnlyWhenFull(cfg: Config, tr: seq<System>, es: seq<Event>, i: nat)
    requires Run(cfg, tr, es) && i < |es| && es[i].Decide?
    ensures es[i].g in tr[i + 1].parked <==>
            !TurnedAway(tr[i], es[i].g) && tr[i].sh.idle == [] && cfg.maxActive != 0 && tr[i].sh.active >= cfg.maxActive
    ensures es[i].g in tr[i + 1].creating <==>
            !TurnedAway(tr[i], es[i].g) && tr[i].sh.idle == [] && (cfg.maxActive == 0 || tr[i].sh.active < cfg.maxActive)
  {
    RunKeepsInv(cfg, tr, es, i);
    GetDecides(cfg, tr[i], es[i].g, es[i].bad);
  }

  lemma StepParks(cfg: Config, s: System, e: Event)
    requires Enabled(s, e) && cfg.maxActive == 0 && s.parked == {}
    ensures Apply(cfg, s, e).parked == {}
  {
  }

  /** Without a limit nobody ever waits. */
  lemma {:induction false} NobodyWaitsWithoutLimit(cfg: Config, tr: seq<System>, es: seq<Event>, i: nat)
    requires Run(cfg, tr, es) && i < |tr| && cfg.maxActive == 0
    ensures tr[i].parked == {}
  {
    if i > 0 {
      NobodyWaitsWithoutLimit(cfg, tr, es, i - 1);
      StepParks(cfg, tr[i - 1], es[i - 1]);
    }
  }

  /** The caller is not inside Get, or at most about to decide from the top of the loop. */
  predicate Unserved(s: System, g: Getter) {
    g !in s.woken && g !in s.window && g !in s.creating && g !in s.parked
  }

  /** Nothing changes but the caller's leaving. */
  predicate OnlyLeaves(s: System, t: System, g: Getter) {
    t == s.(arriving := s.arriving - {g}, woken := s.woken - {g}, window := s.window - {g})
  }

  lemma StepLeavesUnserved(cfg: Config, s: System, e: Event, g: Getter)
    requires Enabled(s, e) && s.sh.closed && Unserved(s, g)
    ensures Unserved(Apply(cfg, s, e), g) && Apply(cfg, s, e).sh.closed
    ensures e.Decide? && e.g == g ==> OnlyLeaves(s, Apply(cfg, s, e), g)
  {
  }

  /** After Close a caller that was not inside Get yet never obtains a connection, makes one or
      waits: each of its decisions only lets it go. */
  lemma {:induction false} ClosedPoolServesNobody(cfg: Config, tr: seq<System>, es: seq<Event>, i: nat, j: nat, g: Getter)
    requires Run(cfg, tr, es) && i <= j < |tr| && tr[i].sh.closed && Unserved(tr[i], g)
    ensures tr[j].sh.closed && Unserved(tr[j], g)
    ensures j < |es| && es[j].Decide? && es[j].g == g ==> OnlyLeaves(tr[j], tr[j + 1], g)
  {
    if i < j {
      ClosedPoolServesNobody(cfg, tr, es, i, j - 1, g);
      StepLeavesUnserved(cfg, tr[j - 1], es[j - 1], g);
    }
    if j < |es| {
      StepLeavesUnserved(cfg, tr[j], es[j], g);
    }
  }

  /** Once Close has finished, every waiting caller can wake up, and it then leaves at its next
      decision and changes nothing else. */
  lemma CloseReleasesWaiters(cfg: Config, s: System, g: Getter, bad: set<Conn>)
    requires CallersApart(s) && Closing(s) && s.sh.waitClosed && g in s.parked
    ensures Enabled(s, Wake(g))
    ensures var w := Apply(cfg, s, Wake(g));
            && Enabled(w, Decide(g, bad)) && OnlyLeaves(w, Apply(cfg, w, Decide(g, bad)), g)
            && w.parked == s.parked - {g} && w.lent == s.lent && w.creating == s.creating
  {
  }

  lemma ExtendRun(cfg: Config, tr: seq<System>, es: seq<Event>, e: Event) returns (tr': seq<System>, es': seq<Event>)
    requires Run(cfg, tr, es) && Enabled(tr[|es|], e)
    ensures Run(cfg, tr', es') && tr'[|es'|] == Apply(cfg, tr[|es|], e)
  {
    tr', es' := tr + [Apply(cfg, tr[|es|], e)], es + [e];
    forall i | 0 <= i < |es'|
      ensures Enabled(tr'[i], es'[i]) && tr'[i + 1] == Apply(cfg, tr'[i], es'[i])
    {
      assert i < |es| ==> Enabled(tr[i], es[i]) && tr[i + 1] == Apply(cfg, tr[i], es[i]);
    }
  }

  /** One caller has used a connection and put it back. */
  lemma OneIdle(cfg: Config) returns (tr: seq<System>, es: seq<Event>)
    requires cfg == Config(5, 1)
    ensures Run(cfg, tr, es)
    ensures tr[|es|] == System(Shared(false, [7], 0, 1, false), {}, {}, {}, {}, {}, {}, {}, 0, 0)
  {
    tr, es := [Start], [];
    tr, es := ExtendRun(cfg, tr, es, Enter(0));
    tr, es := ExtendRun(cfg, tr, es, Decide(0, {}));
    tr, es := ExtendRun(cfg, tr, es, FactoryOk(0, 7));
    tr, es := ExtendRun(cfg, tr, es, Return(7, true));
  }

  /** Close in the middle of a Get that is closing a stale connection goes unnoticed: the caller does
      not look at `closed` again and makes a connection in the closed pool. */
  lemma ServedAfterCloseExample() returns (cfg: Config, tr: seq<System>, es: seq<Event>)
    ensures Run(cfg, tr, es) && tr[|es|].sh.closed && tr[|es|].creating == {1}
  {
    cfg := Config(5, 1);
    tr, es := OneIdle(cfg);
    tr, es := ExtendRun(cfg, tr, es, Enter(1));
    tr, es := ExtendRun(cfg, tr, es, Decide(1, {7}));
    tr, es := ExtendRun(cfg, tr, es, BeginClose);
    tr, es := ExtendRun(cfg, tr, es, Decide(1, {}));
  }

  /** A caller whose context ends leaves, and nothing else changes. */
  lemma CancelledCallerLeaves(cfg: Config, s: System, g: Getter)
    requires CallersApart(s) && Enabled(s, Cancel(g))
    ensures var t := Apply(cfg, s, Cancel(g));
            g !in t.arriving + t.woken + t.creating + t.parked && t.(parked := t.parked + {g}) == s
  {
  }

  function Wakes(es: seq<Event>, i: nat): nat
    requires i <= |es|
  {
    if i == 0 then 0 else Wakes(es, i - 1) + if es[i - 1].Wake? then 1 else 0
  }

  function Returns(es: seq<Event>, i: nat): nat
    requires i <= |es|
  {
    if i == 0 then 0 else Returns(es, i - 1) + if es[i - 1].Return? then 1 else 0
  }

  lemma StepTokens(cfg: Config, s: System, e: Event)
    requires Enabled(s, e) && !s.sh.waitClosed
    ensures Apply(cfg, s, e).sh.tokens + (if e.Wake? then 1 else 0) <= s.sh.tokens + if e.Return? then 1 else 0
  {
  }

  /** Every wake-up before the end of Close is owed to a Put of its own: there are no spurious ones. */
  lemma {:induction false} WakeupsComeFromPuts(cfg: Config, tr: seq<System>, es: seq<Event>, i: nat)
    requires Run(cfg, tr, es) && i < |tr| && !tr[i].sh.waitClosed
    ensures Wakes(es, i) + tr[i].sh.tokens <= Returns(es, i)
  {
    if i > 0 {
      ChannelClosedExactlyAfterFinish(cfg, tr, es, i - 1);
      ChannelClosedExactlyAfterFinish(cfg, tr, es, i);
      WakeupsComeFromPuts(cfg, tr, es, i - 1);
      StepTokens(cfg, tr[i - 1], es[i - 1]);
    }
  }

  /** A connection that is put back stays in the pool if and only if the pool is open, the connection
      is available and the idle stack is not full; else it is closed. A token is added unless the
      channel is full. */
  lemma PutDecides(cfg: Config, s: System, c: Conn, available: bool)
    requires Ownership(s) && Enabled(s, Return(c, available))
    ensures var t := Apply(cfg, s, Return(c, available));
            && (c in t.sh.idle <==> !s.sh.closed && available && |s.sh.idle| < cfg.maxIdle)
            && (c in t.removed <==> c !in t.sh.idle) && c !in t.lent
            && (forall d :: d != c ==> (d in t.sh.idle <==> d in s.sh.idle) && (d in t.removed <==> d in s.removed))
            && (!s.sh.waitClosed ==>
                  var cap := if cfg.maxActive <= 0 then 64 else cfg.maxActive;
                  t.sh.tokens == if s.sh.tokens < cap then s.sh.tokens + 1 else s.sh.tokens)
  {
  }

  // ----- what the background filter keeps -----

  /** The positions of the connections that are not bad. */
  function HealthyAt(cs: seq<Conn>, bad: set<Conn>): seq<nat> {
    if cs == [] then []
    else HealthyAt(cs[..|cs| - 1], bad) + if cs[|cs| - 1] in bad then [] else [|cs| - 1]
  }

  lemma {:induction false} HealthyPositions(cs: seq<Conn>, bad: set<Conn>, p: nat)
    ensures p in HealthyAt(cs, bad) <==> p < |cs| && cs[p] !in bad
  {
    if cs != [] {
      HealthyPositions(cs[..|cs| - 1], bad, p);
    }
  }

  /** The filter keeps exactly the healthy connections, in their old order. */
  lemma {:induction false} CleanKeepsHealthyInOrder(cs: seq<Conn>, bad: set<Conn>)
    ensures var at := HealthyAt(cs, bad);
            && |at| == |Healthy(cs, bad)|
            && (forall i, j :: 0 <= i < j < |at| ==> at[i] < at[j])
            && (forall i :: 0 <= i < |at| ==> at[i] < |cs| && Healthy(cs, bad)[i] == cs[at[i]])
  {
    if cs != [] {
      CleanKeepsHealthyInOrder(cs[..|cs| - 1], bad);
    }
  }

  lemma MultisetOfLast(cs: seq<Conn>)
    requires cs != []
    ensures multiset(cs) == multiset(cs[..|cs| - 1]) + multiset{cs[|cs| - 1]}
  {
    assert cs == cs[..|cs| - 1] + [cs[|cs| - 1]];
  }

  /** What is not kept is closed, and nothing is both. */
  lemma {:induction false} CleanSplitsIdle(cs: seq<Conn>, bad: set<Conn>)
    ensures multiset(cs) == multiset(Healthy(cs, bad)) + multiset(Stale(cs, bad))
    ensures forall c :: c in Stale(cs, bad) ==> c in bad
  {
    if cs != [] {
      CleanSplitsIdle(cs[..|cs| - 1], bad);
      MultisetOfLast(cs);
    }
  }
}
