/** The stream's sections taken apart: what can happen on a connection while a Subscribe or an Unsubscribe holds the
    stream's lock, and why the machine of module UserStream has nothing more to say about it. */
module UserStreamLocks {
  import opened Basics
  import opened UserStream

  /** Who holds the stream's lock, halfway through: a Subscribe that has found or dialed its connection (userstream.go:
      200-219, with 220-223 to come), or an Unsubscribe that has deactivated its address (237, with 238-260 to come). */
  datatype Lock =
    | Free
    | Joining(addr: string, at: nat, isNew: bool)
    | Leaving(addr: string)

  /** `closing` are the connections emptied whose `done` channel is not closed yet (264-270). */
  datatype Fine = Fine(st: State, closing: set<nat>, lock: Lock)

  const FineInitial := Fine(Initial, {}, Free)

  datatype FineEvent =
    | BeginSubscribe(addr: string, dialOk: bool)
    | EndSubscribe
    | BeginUnsubscribe(addr: string)
    | EndUnsubscribe
    | Close(c: nat)
    | Goroutine(ev: Event)

  /** Steps of a connection's goroutine that do not wait for the stream's lock. */
  predicate Lockless(ev: Event) {
    ev.ReadFails? || ev.DialFails? || ev.SeesDone? || ev.Cancelled?
  }

  /** Those that do. */
  predicate Locking(ev: Event) {
    ev.Remove? || ev.Recheck? || ev.DialSucceeds?
  }

  ghost predicate FineEnabled(f: Fine, e: FineEvent)
    requires WellFormed(f.st)
  {
    match e
    case BeginSubscribe(_, _) => f.lock.Free?
    case EndSubscribe => f.lock.Joining? && f.lock.at < |f.st.sh.subs|
    case BeginUnsubscribe(_) => f.lock.Free?
    case EndUnsubscribe => f.lock.Leaving?
    case Close(c) => c in f.closing
    case Goroutine(ev) =>
      && (Lockless(ev) || (Locking(ev) && f.lock.Free?))
      && Enabled(f.st, ev)
      && (ev.SeesDone? ==> ev.c !in f.closing)
  }

  /** The second half of Unsubscribe. */
  ghost function Left(sh: Shared, addr: string): (Shared, Option<nat>)
    requires InRange(sh)
  {
    match FirstHolding(sh, addr, 0)
    case None => (sh, None)
    case Some(c) =>
      var subs := sh.subs[c := sh.subs[c] - {addr}];
      if subs[c] == {} then (sh.(conns := Without(sh.conns, c), subs := subs), Some(c)) else (sh.(subs := subs), None)
  }

  ghost function FineStep(f: Fine, e: FineEvent): Fine
    requires WellFormed(f.st) && FineEnabled(f, e)
  {
    match e
    case BeginSubscribe(addr, dialOk) =>
      if addr in f.st.sh.active then f
      else
        (match FirstWithRoom(f.st.sh, 0)
         case Some(c) => f.(lock := Joining(addr, c, false))
         case None =>
           if dialOk then
             f.(st := f.st.(sh := Reattached(f.st.sh, {}), phase := f.st.phase + [Reading]),
                lock := Joining(addr, |f.st.phase|, true))
           else f)
    case EndSubscribe => f.(st := f.st.(sh := Attached(f.st.sh, f.lock.at, f.lock.addr)), lock := Free)
    case BeginUnsubscribe(addr) =>
      if addr !in f.st.sh.active then f
      else f.(st := f.st.(sh := f.st.sh.(active := f.st.sh.active - {addr})), lock := Leaving(addr))
    case EndUnsubscribe =>
      var (sh, emptied) := Left(f.st.sh, f.lock.addr);
      var gone := if emptied.Some? then {emptied.value} else {};
      Fine(f.st.(sh := sh, closed := f.st.closed + gone), f.closing + gone, Free)
    case Close(c) => f.(closing := f.closing - {c})
    case Goroutine(ev) => f.(st := Step(f.st, ev))
  }

  /** The state before the call that holds the lock. */
  ghost function Before(f: Fine): State
    requires f.lock.Joining? && f.lock.isNew ==>
      f.lock.at < |f.st.phase| && f.lock.at < |f.st.sh.subs| && f.st.sh.conns != []
  {
    match f.lock
    case Free => f.st
    case Joining(addr, at, isNew) =>
      if isNew then
        State(Shared(f.st.sh.active, f.st.sh.conns[..|f.st.sh.conns| - 1], f.st.sh.subs[..at]), f.st.phase[..at],
              f.st.closed)
      else f.st
    case Leaving(addr) => f.st.(sh := f.st.sh.(active := f.st.sh.active + {addr}))
  }

  /** A connection just dialed is the last one, empty, and its goroutine reads, has failed at it or was cancelled. */
  ghost predicate JustDialed(f: Fine)
    requires f.lock.Joining?
  {
    var at := f.lock.at;
    && |f.st.phase| == |f.st.sh.subs| == at + 1
    && f.st.sh.conns != [] && f.st.sh.conns[|f.st.sh.conns| - 1] == at
    && f.st.sh.subs[at] == {}
    && f.st.phase[at] in {Reading, Dropping({}), Finished}
    && at !in f.st.closed
  }

  ghost predicate FineWellFormed(f: Fine) {
    && WellFormed(f.st)
    && match f.lock
       case Free => true
       case Joining(addr, at, isNew) =>
         && addr !in f.st.sh.active
         && (isNew ==> JustDialed(f))
         && WellFormed(Before(f))
         && FirstWithRoom(Before(f).sh, 0) == if isNew then None else Some(at)
       case Leaving(addr) => addr !in f.st.sh.active && WellFormed(Before(f))
  }

  // ---- every fine step is none, one or two steps of the machine ----

  lemma DialingStep(f: Fine, addr: string)
    requires FineWellFormed(f) && f.lock.Free? && addr !in f.st.sh.active && FirstWithRoom(f.st.sh, 0).None?
    ensures FineWellFormed(FineStep(f, BeginSubscribe(addr, true)))
    ensures Before(FineStep(f, BeginSubscribe(addr, true))) == f.st
  {
    DialedStays(f.st);
    DialedWellFormed(f.st);
  }

  lemma DialedStays(st: State)
    requires WellFormed(st)
    ensures var n := |st.phase|;
      && |Reattached(st.sh, {}).conns| == |st.sh.conns| + 1
      && Reattached(st.sh, {}).conns[..|st.sh.conns|] == st.sh.conns
      && Reattached(st.sh, {}).subs[..n] == st.sh.subs && (st.phase + [Reading])[..n] == st.phase
      && n !in st.sh.conns && n !in st.closed
  {
  }

  lemma DialedWellFormed(st: State)
    requires WellFormed(st)
    ensures WellFormed(st.(sh := Reattached(st.sh, {}), phase := st.phase + [Reading]))
  {
  }

  lemma JoiningStep(f: Fine, addr: string, dialOk: bool)
    requires FineWellFormed(f) && f.lock.Free?
    ensures FineWellFormed(FineStep(f, BeginSubscribe(addr, dialOk)))
    ensures Before(FineStep(f, BeginSubscribe(addr, dialOk))) == f.st
  {
    if addr !in f.st.sh.active && FirstWithRoom(f.st.sh, 0).None? && dialOk {
      DialingStep(f, addr);
    }
  }

  lemma LeavingStep(f: Fine, addr: string)
    requires FineWellFormed(f) && f.lock.Free?
    ensures FineWellFormed(FineStep(f, BeginUnsubscribe(addr)))
    ensures Before(FineStep(f, BeginUnsubscribe(addr))) == f.st
  {
    if addr in f.st.sh.active {
      assert f.st.sh.active - {addr} + {addr} == f.st.sh.active;
    }
  }

  lemma LeftIsUnsubscribed(sh: Shared, addr: string)
    requires InRange(sh) && addr !in sh.active
    ensures var before := sh.(active := sh.active + {addr});
      Left(sh, addr) == (Unsubscribed(before, addr), Emptied(before, addr))
  {
    var before := sh.(active := sh.active + {addr});
    HoldingIgnoresActive(sh, before, addr, 0);
    assert before.active - {addr} == sh.active;
    var holder := FirstHolding(sh, addr, 0);
    if holder.Some? {
      assert holder.value in sh.conns;
      assert sh.subs[holder.value] - {addr} == {} <==> sh.subs[holder.value] == {addr};
    }
  }

  lemma {:induction false} HoldingIgnoresActive(a: Shared, b: Shared, addr: string, i: nat)
    requires InRange(a) && b == a.(active := b.active) && i <= |a.conns|
    ensures FirstHolding(a, addr, i) == FirstHolding(b, addr, i)
    decreases |a.conns| - i
  {
    if i < |a.conns| {
      HoldingIgnoresActive(a, b, addr, i + 1);
    }
  }

  lemma EndUnsubscribeStep(f: Fine)
    requires FineWellFormed(f) && f.lock.Leaving?
    ensures FineWellFormed(FineStep(f, EndUnsubscribe))
    ensures FineStep(f, EndUnsubscribe).st == Step(Before(f), Unsubscribe(f.lock.addr))
  {
    LeftIsUnsubscribed(f.st.sh, f.lock.addr);
    StepWellFormed(Before(f), Unsubscribe(f.lock.addr));
    assert f.st.closed + {} == f.st.closed;
  }

  /** What a dialing Subscribe amounts to, by how far the new connection's reader got. */
  ghost function DialedBy(addr: string, at: nat, phase: Phase): seq<Event> {
    match phase
    case Reading => [Subscribe(addr, true)]
    case Finished => [Subscribe(addr, true), Cancelled(at)]
    case _ => [DialedAndLost(addr)]
  }

  ghost function DialOutcome(f: Fine): seq<Event>
    requires f.lock.Joining? && JustDialed(f)
  {
    DialedBy(f.lock.addr, f.lock.at, f.st.phase[f.lock.at])
  }

  lemma DialedShared(f: Fine)
    requires FineWellFormed(f) && f.lock.Joining? && f.lock.isNew
    ensures Attached(f.st.sh, f.lock.at, f.lock.addr) == Subscribed(Before(f).sh, f.lock.addr, true)
    ensures f.st.phase == Before(f).phase + [f.st.phase[f.lock.at]] && |Before(f).phase| == f.lock.at
  {
    var sh := Before(f).sh;
    assert f.st.sh.conns == sh.conns + [f.lock.at] && f.st.sh.subs == sh.subs + [{}];
    assert f.st.sh == Reattached(sh, {});
    DialThenAttach(sh, f.lock.addr);
  }

  /** With the base state, its shared part and the reader's phase at hand, the end of a dialing Subscribe. */
  lemma DialEnds(st: State, addr: string, phase: Phase) returns (evs: seq<Event>)
    requires WellFormed(st) && addr !in st.sh.active && FirstWithRoom(st.sh, 0).None?
    requires phase in {Reading, Dropping({}), Finished}
    ensures evs == DialedBy(addr, |st.phase|, phase)
    ensures Exec(st, evs) == Some(st.(sh := Subscribed(st.sh, addr, true), phase := st.phase + [phase]))
  {
    evs := DialedBy(addr, |st.phase|, phase);
    if phase.Dropping? {
      StepWellFormed(st, DialedAndLost(addr));
      OneStep(st, DialedAndLost(addr));
    } else {
      StepWellFormed(st, Subscribe(addr, true));
      OneStep(st, Subscribe(addr, true));
      if phase.Finished? {
        DialCancelled(st, addr);
      }
    }
  }

  lemma DialCancelled(st: State, addr: string)
    requires WellFormed(st) && addr !in st.sh.active && FirstWithRoom(st.sh, 0).None?
    ensures Exec(st, [Subscribe(addr, true), Cancelled(|st.phase|)])
      == Some(st.(sh := Subscribed(st.sh, addr, true), phase := st.phase + [Finished]))
  {
    var n := |st.phase|;
    StepWellFormed(st, Subscribe(addr, true));
    assert (st.phase + [Reading])[n := Finished] == st.phase + [Finished];
    TwoSteps(st, Subscribe(addr, true), Cancelled(n));
  }

  lemma EndDialStep(f: Fine)
    requires FineWellFormed(f) && f.lock.Joining? && f.lock.isNew
    ensures FineWellFormed(FineStep(f, EndSubscribe))
    ensures Exec(Before(f), DialOutcome(f)) == Some(FineStep(f, EndSubscribe).st)
  {
    DialedShared(f);
    var evs := DialEnds(Before(f), f.lock.addr, f.st.phase[f.lock.at]);
  }

  lemma EndJoinStep(f: Fine)
    requires FineWellFormed(f) && f.lock.Joining? && !f.lock.isNew
    ensures f.lock.at < |f.st.sh.subs| && FineWellFormed(FineStep(f, EndSubscribe))
    ensures Exec(Before(f), [Subscribe(f.lock.addr, true)]) == Some(FineStep(f, EndSubscribe).st)
  {
    assert f.lock.at in f.st.sh.conns;
    StepWellFormed(f.st, Subscribe(f.lock.addr, true));
    OneStep(f.st, Subscribe(f.lock.addr, true));
  }

  /** A step that takes no lock, halfway through a call: it is the same step before the call, or, on the connection
      just dialed, none. */
  lemma LocklessStep(f: Fine, ev: Event)
    requires FineWellFormed(f) && Lockless(ev) && Enabled(f.st, ev)
    ensures FineWellFormed(f.(st := Step(f.st, ev)))
    ensures var own := f.lock.Joining? && f.lock.isNew && ev.c == f.lock.at;
      && (own ==> Before(f.(st := Step(f.st, ev))) == Before(f))
      && (!own ==> Enabled(Before(f), ev) && Before(f.(st := Step(f.st, ev))) == Step(Before(f), ev))
  {
    StepWellFormed(f.st, ev);
    if f.lock.Joining? && f.lock.isNew {
      DialedLockless(f, ev);
    } else {
      StepWellFormed(Before(f), ev);
    }
  }

  lemma DialedLockless(f: Fine, ev: Event)
    requires FineWellFormed(f) && Lockless(ev) && Enabled(f.st, ev) && WellFormed(Step(f.st, ev))
    requires f.lock.Joining? && f.lock.isNew
    ensures FineWellFormed(f.(st := Step(f.st, ev)))
    ensures ev.c == f.lock.at ==> Before(f.(st := Step(f.st, ev))) == Before(f)
    ensures ev.c != f.lock.at ==> Enabled(Before(f), ev) && Before(f.(st := Step(f.st, ev))) == Step(Before(f), ev)
  {
    var at, phase' := f.lock.at, Step(f.st, ev).phase;
    if ev.c == at {
      assert phase'[..at] == f.st.phase[..at];
    } else {
      assert phase'[..at] == f.st.phase[..at][ev.c := phase'[ev.c]];
      StepWellFormed(Before(f), ev);
    }
  }

  /** The machine's steps for one fine step. */
  lemma StepSimulated(f: Fine, e: FineEvent) returns (evs: seq<Event>)
    requires FineWellFormed(f) && FineEnabled(f, e)
    ensures FineWellFormed(FineStep(f, e)) && Exec(Before(f), evs) == Some(Before(FineStep(f, e)))
  {
    evs := [];
    match e
    case BeginSubscribe(addr, dialOk) => JoiningStep(f, addr, dialOk);
    case EndSubscribe =>
      if f.lock.isNew {
        EndDialStep(f);
        evs := DialOutcome(f);
      } else {
        EndJoinStep(f);
        evs := [Subscribe(f.lock.addr, true)];
      }
    case BeginUnsubscribe(addr) => LeavingStep(f, addr);
    case EndUnsubscribe =>
      EndUnsubscribeStep(f);
      evs := [Unsubscribe(f.lock.addr)];
      OneStep(Before(f), Unsubscribe(f.lock.addr));
    case Close(c) =>
    case Goroutine(ev) =>
      if Lockless(ev) {
        LocklessStep(f, ev);
        if !(f.lock.Joining? && f.lock.isNew && ev.c == f.lock.at) {
          evs := [ev];
          OneStep(Before(f), ev);
        }
      } else {
        StepWellFormed(f.st, ev);
        evs := [ev];
        OneStep(f.st, ev);
      }
  }

  lemma FineStepWellFormed(f: Fine, e: FineEvent)
    requires FineWellFormed(f) && FineEnabled(f, e)
    ensures FineWellFormed(FineStep(f, e))
  {
    var _ := StepSimulated(f, e);
  }

  ghost function FineExec(f: Fine, es: seq<FineEvent>): (r: Option<Fine>)
    requires FineWellFormed(f)
    ensures r.Some? ==> FineWellFormed(r.value)
    decreases |es|
  {
    if es == [] then Some(f)
    else if !FineEnabled(f, es[0]) then None
    else
      FineStepWellFormed(f, es[0]);
      FineExec(FineStep(f, es[0]), es[1..])
  }

  lemma {:induction false} FineExecConcat(f: Fine, a: seq<FineEvent>, b: seq<FineEvent>)
    requires FineWellFormed(f) && FineExec(f, a).Some?
    ensures FineExec(f, a + b) == FineExec(FineExec(f, a).value, b)
    decreases |a|
  {
    if a == [] {
      assert a + b == b;
    } else {
      FineStepWellFormed(f, a[0]);
      assert (a + b)[0] == a[0] && (a + b)[1..] == a[1..] + b;
      FineExecConcat(FineStep(f, a[0]), a[1..], b);
    }
  }

  lemma OneFineStep(f: Fine, e: FineEvent)
    requires FineWellFormed(f) && FineEnabled(f, e)
    ensures FineWellFormed(FineStep(f, e)) && FineExec(f, [e]) == Some(FineStep(f, e))
  {
    FineStepWellFormed(f, e);
    assert [e][1..] == [];
    assert FineExec(FineStep(f, e), []) == Some(FineStep(f, e));
  }

  /** One more fine step after a run. */
  lemma ThenFineStep(f: Fine, es: seq<FineEvent>, e: FineEvent)
    requires FineWellFormed(f) && FineExec(f, es).Some? && FineEnabled(FineExec(f, es).value, e)
    ensures FineExec(f, es + [e]) == Some(FineStep(FineExec(f, es).value, e))
  {
    OneFineStep(FineExec(f, es).value, e);
    FineExecConcat(f, es, [e]);
  }

  /** Every fine run is a run of the machine, up to the call in progress. */
  lemma {:induction false} FineRunSimulated(f: Fine, es: seq<FineEvent>) returns (evs: seq<Event>)
    requires FineWellFormed(f) && FineExec(f, es).Some?
    ensures Exec(Before(f), evs) == Some(Before(FineExec(f, es).value))
    decreases |es|
  {
    if es == [] {
      evs := [];
    } else {
      FineStepWellFormed(f, es[0]);
      var first := StepSimulated(f, es[0]);
      var rest := FineRunSimulated(FineStep(f, es[0]), es[1..]);
      evs := first + rest;
      ExecConcat(Before(f), first, rest);
    }
  }

  // ---- every step of the machine is a run of fine steps ----

  /** With no call in progress and nothing waiting to be closed. */
  ghost function At(st: State): Fine {
    Fine(st, {}, Free)
  }

  lemma SubscribeRealized(st: State, addr: string, dialOk: bool) returns (es: seq<FineEvent>)
    requires WellFormed(st)
    ensures WellFormed(Step(st, Subscribe(addr, dialOk)))
    ensures FineExec(At(st), es) == Some(At(Step(st, Subscribe(addr, dialOk))))
  {
    StepWellFormed(st, Subscribe(addr, dialOk));
    var begin := BeginSubscribe(addr, dialOk);
    es := [begin];
    OneFineStep(At(st), begin);
    var f := FineStep(At(st), begin);
    if f.lock.Joining? {
      JoiningStep(At(st), addr, dialOk);
      ThenFineStep(At(st), es, EndSubscribe);
      es := es + [EndSubscribe];
      if f.lock.isNew {
        EndDialStep(f);
        OneStep(st, Subscribe(addr, true));
      } else {
        EndJoinStep(f);
        OneStep(st, Subscribe(addr, true));
      }
    }
  }

  lemma DialedAndLostRealized(st: State, addr: string) returns (es: seq<FineEvent>)
    requires WellFormed(st) && Enabled(st, DialedAndLost(addr))
    ensures WellFormed(Step(st, DialedAndLost(addr)))
    ensures FineExec(At(st), es) == Some(At(Step(st, DialedAndLost(addr))))
  {
    StepWellFormed(st, DialedAndLost(addr));
    var begin, fails := BeginSubscribe(addr, true), Goroutine(ReadFails(|st.phase|));
    OneFineStep(At(st), begin);
    DialingStep(At(st), addr);
    var f := FineStep(At(st), begin);
    ThenFineStep(At(st), [begin], fails);
    var g := FineStep(f, fails);
    FineStepWellFormed(f, fails);
    ThenFineStep(At(st), [begin] + [fails], EndSubscribe);
    LocklessStep(f, ReadFails(|st.phase|));
    EndDialStep(g);
    OneStep(st, DialedAndLost(addr));
    es := [begin] + [fails] + [EndSubscribe];
  }

  lemma UnsubscribeRealized(st: State, addr: string) returns (es: seq<FineEvent>)
    requires WellFormed(st)
    ensures WellFormed(Step(st, Unsubscribe(addr)))
    ensures FineExec(At(st), es) == Some(At(Step(st, Unsubscribe(addr))))
  {
    StepWellFormed(st, Unsubscribe(addr));
    var begin := BeginUnsubscribe(addr);
    es := [begin];
    OneFineStep(At(st), begin);
    var f := FineStep(At(st), begin);
    if f.lock.Leaving? {
      LeavingStep(At(st), addr);
      EndUnsubscribeStep(f);
      ThenFineStep(At(st), es, EndUnsubscribe);
      es := es + [EndUnsubscribe];
      var g := FineStep(f, EndUnsubscribe);
      if g.closing != {} {
        var c :| c in g.closing;
        assert g.closing == {c};
        ThenFineStep(At(st), es, Close(c));
        es := es + [Close(c)];
      }
    }
  }

  lemma StepRealized(st: State, ev: Event) returns (es: seq<FineEvent>)
    requires WellFormed(st) && Enabled(st, ev)
    ensures WellFormed(Step(st, ev)) && FineExec(At(st), es) == Some(At(Step(st, ev)))
  {
    StepWellFormed(st, ev);
    if ev.Subscribe? {
      es := SubscribeRealized(st, ev.addr, ev.dialOk);
    } else if ev.DialedAndLost? {
      es := DialedAndLostRealized(st, ev.addr);
    } else if ev.Unsubscribe? {
      es := UnsubscribeRealized(st, ev.addr);
    } else {
      es := [Goroutine(ev)];
      OneFineStep(At(st), Goroutine(ev));
    }
  }

  lemma {:induction false} RunRealized(st: State, evs: seq<Event>) returns (es: seq<FineEvent>)
    requires WellFormed(st) && Exec(st, evs).Some?
    ensures FineExec(At(st), es) == Some(At(Exec(st, evs).value))
    decreases |evs|
  {
    if evs == [] {
      es := [];
    } else {
      StepWellFormed(st, evs[0]);
      var first := StepRealized(st, evs[0]);
      var rest := RunRealized(Step(st, evs[0]), evs[1..]);
      es := first + rest;
      FineExecConcat(At(st), first, rest);
    }
  }

  ghost predicate Reachable(st: State) {
    exists evs :: Exec(Initial, evs) == Some(st)
  }

  ghost predicate ReachableBetweenCalls(st: State) {
    exists es, closing :: FineExec(FineInitial, es) == Some(Fine(st, closing, Free))
  }

  /** The machine misses no interleaving of the program's sections and makes none up: the states it reaches are the ones
      the program reaches between calls. */
  lemma SameStates(st: State)
    ensures Reachable(st) <==> ReachableBetweenCalls(st)
  {
    if Reachable(st) {
      var evs :| Exec(Initial, evs) == Some(st);
      var es := RunRealized(Initial, evs);
      assert FineExec(FineInitial, es) == Some(Fine(st, {}, Free));
    }
    if ReachableBetweenCalls(st) {
      var es, closing :| FineExec(FineInitial, es) == Some(Fine(st, closing, Free));
      var evs := FineRunSimulated(FineInitial, es);
      assert Exec(Initial, evs) == Some(st);
    }
  }

  /** The cap holds halfway through every call as well. */
  lemma FineCapHolds(es: seq<FineEvent>)
    requires FineExec(FineInitial, es).Some?
    ensures Capped(FineExec(FineInitial, es).value.st)
  {
    var f := FineExec(FineInitial, es).value;
    var evs := FineRunSimulated(FineInitial, es);
    CapHolds(Initial, evs);
    if f.lock.Joining? && f.lock.isNew {
      DialedCapped(f);
    }
  }

  lemma DialedCapped(f: Fine)
    requires FineWellFormed(f) && f.lock.Joining? && f.lock.isNew && Capped(Before(f))
    ensures Capped(f.st)
  {
    var at := f.lock.at;
    assert f.st.sh.subs == Before(f).sh.subs + [{}];
    assert f.st.phase == Before(f).phase + [f.st.phase[at]];
  }
}
