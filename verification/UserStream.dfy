/** Multiplexed wallet subscriptions: the critical sections, the interleaving machine and its safety. */
module UserStream {
  import opened Basics

  const MAX_SUBS_PER_CONN: nat := 30

  // ---- the state under the stream's lock, and its critical sections ----

  /** Connections are named by the order they were dialed in; `conns` lists the ones in use. */
  datatype Shared = Shared(active: set<string>, conns: seq<nat>, subs: seq<set<string>>)

  ghost predicate Distinct(list: seq<nat>) {
    forall i, j :: 0 <= i < j < |list| ==> list[i] != list[j]
  }

  predicate InRange(sh: Shared) {
    forall i | 0 <= i < |sh.conns| :: sh.conns[i] < |sh.subs|
  }

  /** The first listed connection at or after position i with room for one more address. */
  function FirstWithRoom(sh: Shared, i: nat): (r: Option<nat>)
    requires InRange(sh) && i <= |sh.conns|
    ensures r.Some? ==> r.value in sh.conns[i..] && |sh.subs[r.value]| < MAX_SUBS_PER_CONN
    ensures r.None? ==> forall k :: i <= k < |sh.conns| ==> |sh.subs[sh.conns[k]]| >= MAX_SUBS_PER_CONN
    decreases |sh.conns| - i
  {
    if i == |sh.conns| then None
    else if |sh.subs[sh.conns[i]]| < MAX_SUBS_PER_CONN then Some(sh.conns[i])
    else FirstWithRoom(sh, i + 1)
  }

  /** The first listed connection at or after position i that carries the address. */
  function FirstHolding(sh: Shared, addr: string, i: nat): (r: Option<nat>)
    requires InRange(sh) && i <= |sh.conns|
    ensures r.Some? ==> r.value in sh.conns[i..] && addr in sh.subs[r.value]
    ensures r.None? ==> forall k :: i <= k < |sh.conns| ==> addr !in sh.subs[sh.conns[k]]
    decreases |sh.conns| - i
  {
    if i == |sh.conns| then None
    else if addr in sh.subs[sh.conns[i]] then Some(sh.conns[i])
    else FirstHolding(sh, addr, i + 1)
  }

  function Without(list: seq<nat>, target: nat): (r: seq<nat>)
    ensures forall c :: c in r <==> c in list && c != target
    ensures forall i :: 0 <= i < |r| ==> r[i] in list
  {
    if list == [] then []
    else
      assert forall c :: c in list <==> c == list[0] || c in list[1..];
      if list[0] == target then Without(list[1..], target) else [list[0]] + Without(list[1..], target)
  }

  lemma WithoutOnly(c: nat)
    ensures Without([c], c) == []
  {
    assert [c][1..] == [];
  }

  lemma {:induction false} WithoutKeepsDistinct(list: seq<nat>, target: nat)
    requires Distinct(list)
    ensures Distinct(Without(list, target))
  {
    if list != [] {
      WithoutKeepsDistinct(list[1..], target);
      var rest := Without(list[1..], target);
      forall i | 0 <= i < |rest| ensures rest[i] != list[0] {
        assert rest[i] in rest;
        var k :| 0 <= k < |list[1..]| && list[1..][k] == rest[i];
        assert list[k + 1] == rest[i];
      }
    }
  }

  function Subscribed(sh: Shared, addr: string, dialOk: bool): Shared
    requires InRange(sh)
  {
    if addr in sh.active then sh
    else
      match FirstWithRoom(sh, 0)
      case Some(c) => Attached(sh, c, addr)
      case None =>
        if dialOk then
          Shared(sh.active + {addr}, sh.conns + [|sh.subs|], sh.subs + [{addr}])
        else sh
  }

  /** The connection an Unsubscribe empties, and therefore closes. */
  function Emptied(sh: Shared, addr: string): Option<nat>
    requires InRange(sh)
  {
    if addr !in sh.active then None
    else
      match FirstHolding(sh, addr, 0)
      case Some(c) => if sh.subs[c] == {addr} then Some(c) else None
      case None => None
  }

  function Unsubscribed(sh: Shared, addr: string): Shared
    requires InRange(sh)
  {
    if addr !in sh.active then sh
    else
      var conns := if Emptied(sh, addr).Some? then Without(sh.conns, Emptied(sh, addr).value) else sh.conns;
      match FirstHolding(sh, addr, 0)
      case Some(c) => Shared(sh.active - {addr}, conns, sh.subs[c := sh.subs[c] - {addr}])
      case None => sh.(active := sh.active - {addr})
  }

  function Removed(sh: Shared, dead: nat): Shared {
    sh.(conns := Without(sh.conns, dead))
  }

  function Reattached(sh: Shared, toSub: set<string>): Shared {
    sh.(conns := sh.conns + [|sh.subs|], subs := sh.subs + [toSub])
  }

  /** Putting an address on a listed connection. */
  function Attached(sh: Shared, c: nat, addr: string): Shared
    requires c < |sh.subs|
  {
    sh.(active := sh.active + {addr}, subs := sh.subs[c := sh.subs[c] + {addr}])
  }

  /** A Subscribe that dials lists the empty connection first. */
  lemma DialThenAttach(sh: Shared, addr: string)
    requires InRange(sh) && addr !in sh.active && FirstWithRoom(sh, 0).None?
    ensures |Reattached(sh, {}).subs| == |sh.subs| + 1
    ensures Attached(Reattached(sh, {}), |sh.subs|, addr) == Subscribed(sh, addr, true)
  {
    assert {} + {addr} == {addr};
  }

  // ---- the machine ----

  /** Where the goroutine that owns a connection stands: reading; between the two critical sections of
      handleDrop; at the top of reconnect's loop; past its activity check; or gone. */
  datatype Phase =
    | Reading
    | Dropping(addrs: set<string>)
    | Waiting(addrs: set<string>)
    | Dialing(addrs: set<string>, toSub: set<string>)
    | Finished

  datatype State = State(sh: Shared, phase: seq<Phase>, closed: set<nat>)

  const Initial := State(Shared({}, [], []), [], {})

  /** Each event is one section under the stream's lock, or one step that takes none. Subscribe comes in two kinds: a
      call that dials starts the reader (userstream.go:218) before the address is on the connection (220-222), and a
      read that fails in between takes its snapshot without the stream's lock. Module UserStreamLocks shows that
      nothing else can come in between. */
  datatype Event =
    | Subscribe(addr: string, dialOk: bool)
    | DialedAndLost(addr: string)
    | Unsubscribe(addr: string)
    | ReadFails(c: nat)
    | Remove(c: nat)
    | Recheck(c: nat)
    | DialFails(c: nat)
    | DialSucceeds(c: nat)
    | SeesDone(c: nat)
    | Cancelled(c: nat)

  ghost predicate WellFormed(st: State) {
    && InRange(st.sh) && Distinct(st.sh.conns) && |st.phase| == |st.sh.subs|
    && (forall c :: c in st.sh.conns ==> st.phase[c].Reading? || st.phase[c].Dropping? || st.phase[c].Finished?)
    && (forall c :: 0 <= c < |st.phase| && st.phase[c].Dialing? ==> st.phase[c].toSub <= st.phase[c].addrs)
    && (forall c :: c in st.closed ==> c < |st.phase| && c !in st.sh.conns && st.sh.subs[c] == {})
  }

  ghost predicate Enabled(st: State, ev: Event)
    requires WellFormed(st)
  {
    match ev
    case Subscribe(_, _) => true
    case DialedAndLost(addr) => addr !in st.sh.active && FirstWithRoom(st.sh, 0).None?
    case Unsubscribe(_) => true
    case ReadFails(c) => c < |st.phase| && st.phase[c].Reading?
    case Remove(c) => c < |st.phase| && st.phase[c].Dropping?
    case Recheck(c) => c < |st.phase| && st.phase[c].Waiting?
    case DialFails(c) => c < |st.phase| && st.phase[c].Dialing?
    case DialSucceeds(c) => c < |st.phase| && st.phase[c].Dialing?
    case SeesDone(c) => c < |st.phase| && st.phase[c].Reading? && c in st.closed
    case Cancelled(c) => c < |st.phase| && !st.phase[c].Dropping? && !st.phase[c].Finished?
  }

  ghost function Step(st: State, ev: Event): State
    requires WellFormed(st) && Enabled(st, ev)
  {
    match ev
    case Subscribe(addr, dialOk) =>
      var sh := Subscribed(st.sh, addr, dialOk);
      st.(sh := sh, phase := if |sh.subs| > |st.phase| then st.phase + [Reading] else st.phase)
    case DialedAndLost(addr) => st.(sh := Subscribed(st.sh, addr, true), phase := st.phase + [Dropping({})])
    case Unsubscribe(addr) =>
      var emptied := Emptied(st.sh, addr);
      st.(sh := Unsubscribed(st.sh, addr),
          closed := if emptied.Some? then st.closed + {emptied.value} else st.closed)
    case ReadFails(c) => st.(phase := st.phase[c := Dropping(st.sh.subs[c])])
    case Remove(c) => st.(sh := Removed(st.sh, c), phase := st.phase[c := Waiting(st.phase[c].addrs)])
    case Recheck(c) =>
      var toSub := st.phase[c].addrs * st.sh.active;
      st.(phase := st.phase[c := if toSub == {} then Finished else Dialing(st.phase[c].addrs, toSub)])
    case DialFails(c) => st.(phase := st.phase[c := Waiting(st.phase[c].addrs)])
    case DialSucceeds(c) =>
      st.(sh := Reattached(st.sh, st.phase[c].toSub), phase := st.phase[c := Finished] + [Reading])
    case SeesDone(c) => st.(phase := st.phase[c := Finished])
    case Cancelled(c) => st.(phase := st.phase[c := Finished])
  }

  lemma StepWellFormed(st: State, ev: Event)
    requires WellFormed(st) && Enabled(st, ev)
    ensures WellFormed(Step(st, ev))
  {
    match ev
    case Subscribe(addr, dialOk) => SubscribeWellFormed(st, addr, dialOk);
    case DialedAndLost(addr) => DialWellFormed(st, addr, Dropping({}));
    case Unsubscribe(addr) => UnsubscribeWellFormed(st, addr);
    case Remove(c) => WithoutKeepsDistinct(st.sh.conns, c);
    case _ =>
  }

  lemma JoinWellFormed(st: State, addr: string, c: nat)
    requires WellFormed(st) && c in st.sh.conns
    ensures c < |st.sh.subs|
    ensures var sh := st.sh.(active := st.sh.active + {addr}, subs := st.sh.subs[c := st.sh.subs[c] + {addr}]);
      WellFormed(st.(sh := sh))
  {
  }

  lemma DialWellFormed(st: State, addr: string, phase: Phase)
    requires WellFormed(st) && (phase.Reading? || phase.Dropping?)
    ensures WellFormed(st.(
      sh := Shared(st.sh.active + {addr}, st.sh.conns + [|st.sh.subs|], st.sh.subs + [{addr}]),
      phase := st.phase + [phase]))
  {
  }

  lemma SubscribeWellFormed(st: State, addr: string, dialOk: bool)
    requires WellFormed(st)
    ensures WellFormed(Step(st, Subscribe(addr, dialOk)))
  {
    if addr !in st.sh.active {
      match FirstWithRoom(st.sh, 0)
      case Some(c) => JoinWellFormed(st, addr, c);
      case None => DialWellFormed(st, addr, Reading);
    }
  }

  lemma UnsubscribedFacts(sh: Shared, addr: string)
    requires InRange(sh) && Distinct(sh.conns)
    ensures var sh' := Unsubscribed(sh, addr);
      && InRange(sh') && Distinct(sh'.conns) && |sh'.subs| == |sh.subs|
      && (forall c :: c in sh'.conns ==> c in sh.conns)
      && (forall c :: 0 <= c < |sh.subs| ==> sh'.subs[c] <= sh.subs[c])
      && (Emptied(sh, addr).Some? ==>
            var c := Emptied(sh, addr).value; c < |sh.subs| && c !in sh'.conns && sh'.subs[c] == {})
  {
    var holder := FirstHolding(sh, addr, 0);
    if addr in sh.active && holder.Some? {
      assert holder.value in sh.conns;
      WithoutKeepsDistinct(sh.conns, holder.value);
    }
  }

  lemma UnsubscribeWellFormed(st: State, addr: string)
    requires WellFormed(st)
    ensures WellFormed(Step(st, Unsubscribe(addr)))
  {
    UnsubscribedFacts(st.sh, addr);
    var st' := Step(st, Unsubscribe(addr));
    forall c | c in st'.closed ensures c < |st'.phase| && c !in st'.sh.conns && st'.sh.subs[c] == {} {
    }
  }

  /** The state after a sequence of events, if each was enabled when it came. */
  ghost function Exec(st: State, evs: seq<Event>): (r: Option<State>)
    requires WellFormed(st)
    ensures r.Some? ==> WellFormed(r.value)
    decreases |evs|
  {
    if evs == [] then Some(st)
    else if !Enabled(st, evs[0]) then None
    else
      StepWellFormed(st, evs[0]);
      Exec(Step(st, evs[0]), evs[1..])
  }

  lemma {:induction false} ExecConcat(st: State, a: seq<Event>, b: seq<Event>)
    requires WellFormed(st) && Exec(st, a).Some?
    ensures Exec(st, a + b) == Exec(Exec(st, a).value, b)
    decreases |a|
  {
    if a == [] {
      assert a + b == b;
    } else {
      StepWellFormed(st, a[0]);
      assert (a + b)[0] == a[0] && (a + b)[1..] == a[1..] + b;
      ExecConcat(Step(st, a[0]), a[1..], b);
    }
  }

  lemma OneStep(st: State, ev: Event)
    requires WellFormed(st) && Enabled(st, ev) && WellFormed(Step(st, ev))
    ensures Exec(st, [ev]) == Some(Step(st, ev))
  {
    assert [ev][1..] == [];
    assert Exec(Step(st, ev), []) == Some(Step(st, ev));
  }

  lemma TwoSteps(st: State, e: Event, f: Event)
    requires WellFormed(st) && Enabled(st, e) && WellFormed(Step(st, e)) && Enabled(Step(st, e), f)
    ensures Exec(st, [e, f]) == Some(Step(Step(st, e), f))
  {
    assert [e, f][1..] == [f] && [f][1..] == [];
    assert Exec(Step(st, e), [f]) == Some(Step(Step(st, e), f));
  }

  // ---- the cap, in every run ----

  ghost function Pending(p: Phase): set<string> {
    match p
    case Dropping(addrs) => addrs
    case Waiting(addrs) => addrs
    case Dialing(addrs, _) => addrs
    case _ => {}
  }

  ghost predicate Capped(st: State) {
    && (forall c :: 0 <= c < |st.sh.subs| ==> |st.sh.subs[c]| <= 30)
    && (forall c :: 0 <= c < |st.phase| ==> |Pending(st.phase[c])| <= 30)
  }

  lemma SubscribeKeepsCap(st: State, addr: string, dialOk: bool)
    requires WellFormed(st) && Capped(st)
    ensures Capped(Step(st, Subscribe(addr, dialOk)))
  {
    if addr !in st.sh.active {
      match FirstWithRoom(st.sh, 0)
      case Some(c) => assert |st.sh.subs[c] + {addr}| <= |st.sh.subs[c]| + 1;
      case None => assert |{addr}| == 1;
    }
  }

  lemma DialKeepsCap(st: State, addr: string)
    requires WellFormed(st) && Capped(st) && Enabled(st, DialedAndLost(addr))
    ensures Capped(Step(st, DialedAndLost(addr)))
  {
    assert |{addr}| == 1;
  }

  lemma UnsubscribeKeepsCap(st: State, addr: string)
    requires WellFormed(st) && Capped(st)
    ensures Capped(Step(st, Unsubscribe(addr)))
  {
    if FirstHolding(st.sh, addr, 0).Some? {
      var c := FirstHolding(st.sh, addr, 0).value;
      assert c in st.sh.conns;
      SubsetSize(st.sh.subs[c] - {addr}, st.sh.subs[c]);
    }
  }

  lemma StepKeepsCap(st: State, ev: Event)
    requires WellFormed(st) && Enabled(st, ev) && Capped(st)
    ensures Capped(Step(st, ev))
  {
    match ev
    case Subscribe(addr, dialOk) => SubscribeKeepsCap(st, addr, dialOk);
    case DialedAndLost(addr) => DialKeepsCap(st, addr);
    case Unsubscribe(addr) => UnsubscribeKeepsCap(st, addr);
    case DialSucceeds(c) => SubsetSize(st.phase[c].toSub, st.phase[c].addrs);
    case _ =>
  }

  /** No connection ever carries more than 30 addresses: drops, late subscribes and redials included. */
  lemma {:induction false} CapHolds(st: State, evs: seq<Event>)
    requires WellFormed(st) && Capped(st) && Exec(st, evs).Some?
    ensures Capped(Exec(st, evs).value)
    decreases |evs|
  {
    if evs != [] {
      StepKeepsCap(st, evs[0]);
      StepWellFormed(st, evs[0]);
      CapHolds(Step(st, evs[0]), evs[1..]);
    }
  }

  // ---- coverage across drops ----

  /** Connection c is listed, is read and carries the address, or the goroutine handling its loss will resubscribe
      it. */
  ghost predicate Carries(st: State, c: nat, addr: string)
    requires WellFormed(st) && c < |st.phase|
  {
    match st.phase[c]
    case Dropping(addrs) => addr in addrs
    case Waiting(addrs) => addr in addrs
    case Dialing(_, toSub) => addr in toSub
    case Reading => c in st.sh.conns && addr in st.sh.subs[c]
    case Finished => false
  }

  ghost predicate Covered(st: State, addr: string)
    requires WellFormed(st)
  {
    exists c: nat :: c < |st.phase| && Carries(st, c, addr)
  }

  ghost predicate AllCovered(st: State)
    requires WellFormed(st)
  {
    forall addr :: addr in st.sh.active ==> Covered(st, addr)
  }

  /** A new address joins a listed connection that nobody reads any more: its loss has been noticed, or its context
      was cancelled; or it is dialed for, and the read fails before it is there. */
  ghost predicate JoinsLost(st: State, ev: Event)
    requires WellFormed(st)
  {
    || ev.DialedAndLost?
    || (&& ev.Subscribe? && ev.addr !in st.sh.active
        && var target := FirstWithRoom(st.sh, 0);
        && target.Some? && !st.phase[target.value].Reading?)
  }

  lemma StepKeepsCoverage(st: State, ev: Event)
    requires WellFormed(st) && Enabled(st, ev) && AllCovered(st)
    requires !ev.Cancelled? && !JoinsLost(st, ev)
    ensures WellFormed(Step(st, ev)) && AllCovered(Step(st, ev))
  {
    StepWellFormed(st, ev);
    var st' := Step(st, ev);
    forall addr | addr in st'.sh.active ensures Covered(st', addr) {
      if addr in st.sh.active {
        var c: nat :| c < |st.phase| && Carries(st, c, addr);
        OldAddressStays(st, ev, addr, c);
      } else {
        NewAddressCovered(st, ev);
      }
    }
  }

  lemma OldAddressStays(st: State, ev: Event, addr: string, c: nat)
    requires WellFormed(st) && Enabled(st, ev) && !ev.Cancelled? && WellFormed(Step(st, ev))
    requires c < |st.phase| && Carries(st, c, addr)
    requires addr in st.sh.active && addr in Step(st, ev).sh.active
    ensures Covered(Step(st, ev), addr)
  {
    var st' := Step(st, ev);
    match ev
    case DialSucceeds(d) =>
      assert Carries(st', if d == c then |st.phase| else c, addr);
    case Subscribe(other, dialOk) =>
      SubscribeFrame(st, other, dialOk, c, addr);
    case DialedAndLost(other) =>
      assert Carries(st', c, addr);
    case Unsubscribe(other) =>
      UnsubscribeFrame(st, other, c, addr);
    case Recheck(d) =>
      assert c == d ==> addr in st.phase[c].addrs * st.sh.active;
      assert Carries(st', c, addr);
    case ReadFails(d) =>
      assert Carries(st', c, addr);
    case Remove(d) =>
      assert Carries(st', c, addr);
    case DialFails(d) =>
      assert Carries(st', c, addr);
    case SeesDone(d) =>
      assert Carries(st', c, addr);
  }

  lemma SubscribeFrame(st: State, other: string, dialOk: bool, c: nat, addr: string)
    requires WellFormed(st) && WellFormed(Step(st, Subscribe(other, dialOk)))
    requires c < |st.phase| && Carries(st, c, addr)
    ensures Carries(Step(st, Subscribe(other, dialOk)), c, addr)
  {
    if FirstWithRoom(st.sh, 0).Some? {
      assert FirstWithRoom(st.sh, 0).value in st.sh.conns;
    }
  }

  lemma UnsubscribeFrame(st: State, other: string, c: nat, addr: string)
    requires WellFormed(st) && WellFormed(Step(st, Unsubscribe(other)))
    requires c < |st.phase| && Carries(st, c, addr)
    requires addr in Unsubscribed(st.sh, other).active
    ensures Carries(Step(st, Unsubscribe(other)), c, addr)
  {
    if FirstHolding(st.sh, other, 0).Some? {
      assert FirstHolding(st.sh, other, 0).value in st.sh.conns;
    }
  }

  /** A newly subscribed address is covered exactly unless it joined a listed connection that nobody reads (and
      nothing left over from an earlier subscription happens to carry it). */
  lemma NewAddressCovered(st: State, ev: Event)
    requires WellFormed(st) && (ev.Subscribe? || ev.DialedAndLost?) && Enabled(st, ev) && ev.addr !in st.sh.active
    requires WellFormed(Step(st, ev)) && ev.addr in Step(st, ev).sh.active
    ensures Covered(Step(st, ev), ev.addr) <==> !JoinsLost(st, ev) || Covered(st, ev.addr)
  {
    var st' := Step(st, ev);
    var target := FirstWithRoom(st.sh, 0);
    if JoinsLost(st, ev) {
      assert target.Some? ==> target.value in st.sh.conns;
      assert forall c: nat :: c < |st.phase| ==> Carries(st', c, ev.addr) == Carries(st, c, ev.addr);
    } else if target.None? {
      assert Carries(st', |st.phase|, ev.addr);
    } else {
      assert target.value in st.sh.conns;
      assert Carries(st', target.value, ev.addr);
    }
  }

  /** Something besides connection c carries the address. */
  ghost predicate CoveredBeside(st: State, c: nat, addr: string)
    requires WellFormed(st)
  {
    exists d: nat :: d < |st.phase| && d != c && Carries(st, d, addr)
  }

  /** What an event must respect: no goroutine is cancelled that alone carries an active address, and no address joins
      a connection that nobody reads, unless a leftover carries it. Any other cancellation or late join is harmless. */
  ghost predicate Safe(st: State, ev: Event)
    requires WellFormed(st)
  {
    && (ev.Cancelled? && ev.c < |st.phase| ==>
          forall addr :: addr in st.sh.active && Carries(st, ev.c, addr) ==> CoveredBeside(st, ev.c, addr))
    && (JoinsLost(st, ev) ==> Covered(st, ev.addr))
  }

  lemma CancelCovers(st: State, c: nat, addr: string)
    requires WellFormed(st) && Enabled(st, Cancelled(c))
    ensures WellFormed(Step(st, Cancelled(c)))
    ensures Covered(Step(st, Cancelled(c)), addr) <==> CoveredBeside(st, c, addr)
  {
    StepWellFormed(st, Cancelled(c));
    var st' := Step(st, Cancelled(c));
    assert forall d: nat :: d < |st.phase| ==> (Carries(st', d, addr) <==> d != c && Carries(st, d, addr));
  }

  lemma CancelKeepsCoverageIff(st: State, c: nat)
    requires WellFormed(st) && Enabled(st, Cancelled(c)) && AllCovered(st)
    ensures WellFormed(Step(st, Cancelled(c)))
    ensures AllCovered(Step(st, Cancelled(c))) <==> Safe(st, Cancelled(c))
  {
    StepWellFormed(st, Cancelled(c));
    forall addr | addr in st.sh.active
      ensures Covered(Step(st, Cancelled(c)), addr) <==> (Carries(st, c, addr) ==> CoveredBeside(st, c, addr))
    {
      CancelCovers(st, c, addr);
      var d: nat :| d < |st.phase| && Carries(st, d, addr);
      assert d != c ==> CoveredBeside(st, c, addr);
    }
  }

  lemma JoinBecomesActive(st: State, ev: Event)
    requires WellFormed(st) && Enabled(st, ev) && JoinsLost(st, ev)
    ensures ev.addr !in st.sh.active && ev.addr in Step(st, ev).sh.active
  {
  }

  /** One step from a covered state, of whatever kind: coverage goes on exactly when the step is safe. */
  lemma StepKeepsCoverageIff(st: State, ev: Event)
    requires WellFormed(st) && Enabled(st, ev) && AllCovered(st)
    ensures WellFormed(Step(st, ev)) && (AllCovered(Step(st, ev)) <==> Safe(st, ev))
  {
    StepWellFormed(st, ev);
    if ev.Cancelled? {
      CancelKeepsCoverageIff(st, ev.c);
    } else if JoinsLost(st, ev) {
      JoinBecomesActive(st, ev);
      JoinKeepsCoverageIff(st, ev);
    } else {
      StepKeepsCoverage(st, ev);
    }
  }

  lemma JoinKeepsCoverageIff(st: State, ev: Event)
    requires WellFormed(st) && AllCovered(st) && Enabled(st, ev) && WellFormed(Step(st, ev)) && JoinsLost(st, ev)
    requires ev.addr !in st.sh.active && ev.addr in Step(st, ev).sh.active
    ensures AllCovered(Step(st, ev)) <==> Covered(st, ev.addr)
  {
    var st' := Step(st, ev);
    NewAddressCovered(st, ev);
    forall other | other in st'.sh.active && other != ev.addr ensures Covered(st', other) {
      var c: nat :| c < |st.phase| && Carries(st, c, other);
      OldAddressStays(st, ev, other, c);
    }
  }

  ghost predicate SafeRun(st: State, evs: seq<Event>)
    requires WellFormed(st)
    decreases |evs|
  {
    evs == [] ||
    (&& Enabled(st, evs[0]) && Safe(st, evs[0])
     && (StepWellFormed(st, evs[0]); SafeRun(Step(st, evs[0]), evs[1..])))
  }

  /** In every state the run passes through. */
  ghost predicate AlwaysCovered(st: State, evs: seq<Event>)
    requires WellFormed(st)
    decreases |evs|
  {
    && AllCovered(st)
    && (evs == [] ||
        (&& Enabled(st, evs[0])
         && (StepWellFormed(st, evs[0]); AlwaysCovered(Step(st, evs[0]), evs[1..]))))
  }

  /** In every interleaving, drops and cancellations included: every active address is throughout the run on a listed
      connection that is being read, or in the hands of a goroutine that will resubscribe it, exactly when no step
      cancels the only carrier of an active address or adds an uncovered address to a connection nobody reads. */
  lemma {:induction false} CoverageIff(st: State, evs: seq<Event>)
    requires WellFormed(st) && AllCovered(st) && Exec(st, evs).Some?
    ensures AlwaysCovered(st, evs) <==> SafeRun(st, evs)
    decreases |evs|
  {
    if evs != [] {
      StepKeepsCoverageIff(st, evs[0]);
      if Safe(st, evs[0]) {
        CoverageIff(Step(st, evs[0]), evs[1..]);
      }
    }
  }

  lemma {:induction false} CoveredAtTheEnd(st: State, evs: seq<Event>)
    requires WellFormed(st) && AlwaysCovered(st, evs)
    ensures Exec(st, evs).Some? && AllCovered(Exec(st, evs).value)
    decreases |evs|
  {
    if evs != [] {
      StepWellFormed(st, evs[0]);
      CoveredAtTheEnd(Step(st, evs[0]), evs[1..]);
    }
  }

  lemma {:induction false} SafeRunIsEnabled(st: State, evs: seq<Event>)
    requires WellFormed(st) && SafeRun(st, evs)
    ensures Exec(st, evs).Some?
    decreases |evs|
  {
    if evs != [] {
      StepWellFormed(st, evs[0]);
      SafeRunIsEnabled(Step(st, evs[0]), evs[1..]);
    }
  }

  /** A safe run ends with every active address covered. */
  lemma CoverageHolds(st: State, evs: seq<Event>)
    requires WellFormed(st) && AllCovered(st) && SafeRun(st, evs)
    ensures Exec(st, evs).Some? && AllCovered(Exec(st, evs).value)
  {
    SafeRunIsEnabled(st, evs);
    CoverageIff(st, evs);
    CoveredAtTheEnd(st, evs);
  }

  // ---- addresses lost for good ----

  /** Some goroutine remembers the address, or reads a connection that has it. */
  ghost predicate Remembered(st: State, addr: string)
    requires WellFormed(st)
  {
    exists c: nat :: c < |st.phase| && RemembersAt(st, c, addr)
  }

  ghost predicate RemembersAt(st: State, c: nat, addr: string)
    requires WellFormed(st) && c < |st.phase|
  {
    addr in Pending(st.phase[c]) || (st.phase[c].Reading? && addr in st.sh.subs[c])
  }

  /** Whatever happens next, short of unsubscribing it, the address stays active and nothing carries it. */
  ghost predicate LostForGood(st: State, addr: string)
    requires WellFormed(st)
  {
    forall evs :: Exec(st, evs).Some? && Unsubscribe(addr) !in evs ==>
      addr in Exec(st, evs).value.sh.active && !Covered(Exec(st, evs).value, addr)
  }

  lemma CarriersRemember(st: State, addr: string)
    requires WellFormed(st) && Covered(st, addr)
    ensures Remembered(st, addr)
  {
    var c: nat :| c < |st.phase| && Carries(st, c, addr);
    assert RemembersAt(st, c, addr);
  }

  lemma SubscribeRemembers(st: State, other: string, dialOk: bool, addr: string, c: nat)
    requires WellFormed(st) && WellFormed(Step(st, Subscribe(other, dialOk))) && addr in st.sh.active
    requires c < |Step(st, Subscribe(other, dialOk)).phase| && RemembersAt(Step(st, Subscribe(other, dialOk)), c, addr)
    ensures c < |st.phase| && RemembersAt(st, c, addr)
  {
    if FirstWithRoom(st.sh, 0).Some? {
      assert FirstWithRoom(st.sh, 0).value in st.sh.conns;
    }
  }

  lemma UnsubscribeRemembers(st: State, other: string, addr: string, c: nat)
    requires WellFormed(st) && WellFormed(Step(st, Unsubscribe(other)))
    requires c < |Step(st, Unsubscribe(other)).phase| && RemembersAt(Step(st, Unsubscribe(other)), c, addr)
    ensures c < |st.phase| && RemembersAt(st, c, addr)
  {
    UnsubscribedFacts(st.sh, other);
  }

  lemma NoStepRemembers(st: State, ev: Event, addr: string, c: nat)
    requires WellFormed(st) && Enabled(st, ev) && ev != Unsubscribe(addr) && WellFormed(Step(st, ev))
    requires addr in st.sh.active && c < |Step(st, ev).phase| && RemembersAt(Step(st, ev), c, addr)
    ensures Remembered(st, addr)
  {
    match ev
    case DialSucceeds(d) => assert RemembersAt(st, if c == |st.phase| then d else c, addr);
    case ReadFails(d) => assert RemembersAt(st, c, addr);
    case Subscribe(other, dialOk) => SubscribeRemembers(st, other, dialOk, addr, c);
    case DialedAndLost(other) => assert RemembersAt(st, c, addr);
    case Unsubscribe(other) => UnsubscribeRemembers(st, other, addr, c);
    case Remove(d) => assert RemembersAt(st, c, addr);
    case Recheck(d) => assert RemembersAt(st, c, addr);
    case DialFails(d) => assert RemembersAt(st, c, addr);
    case SeesDone(d) => assert RemembersAt(st, c, addr);
    case Cancelled(d) => assert RemembersAt(st, c, addr);
  }

  lemma ForgottenStep(st: State, ev: Event, addr: string)
    requires WellFormed(st) && Enabled(st, ev) && ev != Unsubscribe(addr)
    requires addr in st.sh.active && !Remembered(st, addr)
    ensures WellFormed(Step(st, ev)) && addr in Step(st, ev).sh.active && !Remembered(Step(st, ev), addr)
  {
    StepWellFormed(st, ev);
    forall c: nat | c < |Step(st, ev).phase| ensures !RemembersAt(Step(st, ev), c, addr) {
      if RemembersAt(Step(st, ev), c, addr) {
        NoStepRemembers(st, ev, addr, c);
      }
    }
  }

  lemma {:induction false} ForgottenStays(st: State, evs: seq<Event>, addr: string)
    requires WellFormed(st) && addr in st.sh.active && !Remembered(st, addr)
    requires Exec(st, evs).Some? && Unsubscribe(addr) !in evs
    ensures addr in Exec(st, evs).value.sh.active && !Covered(Exec(st, evs).value, addr)
    decreases |evs|
  {
    if evs == [] {
      if Covered(st, addr) {
        CarriersRemember(st, addr);
      }
    } else {
      assert evs[0] in evs;
      ForgottenStep(st, evs[0], addr);
      ForgottenStays(Step(st, evs[0]), evs[1..], addr);
    }
  }

  /** What is remembered is carried already, or after a failed read or dial. */
  lemma RememberedReturns(st: State, addr: string, c: nat) returns (evs: seq<Event>)
    requires WellFormed(st) && c < |st.phase| && RemembersAt(st, c, addr)
    ensures Exec(st, evs).Some? && Unsubscribe(addr) !in evs && Covered(Exec(st, evs).value, addr)
  {
    evs := [];
    if !Carries(st, c, addr) {
      var ev := if st.phase[c].Reading? then ReadFails(c) else DialFails(c);
      evs := [ev];
      StepWellFormed(st, ev);
      OneStep(st, ev);
      assert Carries(Step(st, ev), c, addr);
    }
  }

  /** An active address is lost for good exactly when no goroutine remembers it and none reads a connection with it. */
  lemma LostForGoodIff(st: State, addr: string)
    requires WellFormed(st) && addr in st.sh.active
    ensures LostForGood(st, addr) <==> !Remembered(st, addr)
  {
    if Remembered(st, addr) {
      var c: nat :| c < |st.phase| && RemembersAt(st, c, addr);
      var evs := RememberedReturns(st, addr, c);
      assert Exec(st, evs).Some? && Unsubscribe(addr) !in evs && Covered(Exec(st, evs).value, addr);
    } else {
      forall evs | Exec(st, evs).Some? && Unsubscribe(addr) !in evs
        ensures addr in Exec(st, evs).value.sh.active && !Covered(Exec(st, evs).value, addr)
      {
        ForgottenStays(st, evs, addr);
      }
    }
  }

  lemma {:induction false} FinishedStays(st: State, c: nat, evs: seq<Event>)
    requires WellFormed(st) && c < |st.phase| && st.phase[c].Finished? && Exec(st, evs).Some?
    ensures c < |Exec(st, evs).value.phase| && Exec(st, evs).value.phase[c].Finished?
    decreases |evs|
  {
    if evs != [] {
      StepWellFormed(st, evs[0]);
      FinishedStays(Step(st, evs[0]), c, evs[1..]);
    }
  }

  /** A goroutine that sees its connection closed or its context cancelled ends for good, and changes nothing else. */
  lemma EndsForGood(st: State, c: nat, ev: Event, evs: seq<Event>)
    requires WellFormed(st) && ev in {SeesDone(c), Cancelled(c)} && Enabled(st, ev) && Exec(st, [ev] + evs).Some?
    ensures Step(st, ev).sh == st.sh && Step(st, ev).closed == st.closed
    ensures forall d :: 0 <= d < |st.phase| && d != c ==> Step(st, ev).phase[d] == st.phase[d]
    ensures c < |Exec(st, [ev] + evs).value.phase| && Exec(st, [ev] + evs).value.phase[c].Finished?
  {
    StepWellFormed(st, ev);
    assert ([ev] + evs)[0] == ev && ([ev] + evs)[1..] == evs;
    FinishedStays(Step(st, ev), c, evs);
  }

  /** A context can be cancelled wherever its goroutine stands, but between the two sections of handleDrop. What that
      goroutine alone remembered is then lost for good. */
  lemma CancelLoses(st: State, c: nat, addr: string)
    requires WellFormed(st) && c < |st.phase| && !st.phase[c].Dropping? && !st.phase[c].Finished?
    requires addr in st.sh.active && forall d: nat :: d < |st.phase| && d != c ==> !RemembersAt(st, d, addr)
    ensures Enabled(st, Cancelled(c)) && WellFormed(Step(st, Cancelled(c)))
    ensures LostForGood(Step(st, Cancelled(c)), addr)
  {
    StepWellFormed(st, Cancelled(c));
    var st' := Step(st, Cancelled(c));
    forall d: nat | d < |st'.phase| ensures !RemembersAt(st', d, addr) {
      assert d != c ==> !RemembersAt(st, d, addr);
    }
    LostForGoodIff(st', addr);
  }

  lemma JoinsTheLost(st: State, addr: string, dialOk: bool)
    requires WellFormed(st) && JoinsLost(st, Subscribe(addr, dialOk)) && !Covered(st, addr)
    ensures var st' := Step(st, Subscribe(addr, dialOk));
      WellFormed(st') && addr in st'.sh.active && !Covered(st', addr) && st'.phase == st.phase
    ensures FirstWithRoom(st.sh, 0).value < |st.phase|
  {
    assert FirstWithRoom(st.sh, 0).value in st.sh.conns;
    StepWellFormed(st, Subscribe(addr, dialOk));
    NewAddressCovered(st, Subscribe(addr, dialOk));
  }

  lemma RemoveCoversNoMore(st: State, c: nat, addr: string)
    requires WellFormed(st) && c < |st.phase| && st.phase[c].Dropping? && !Covered(st, addr)
    ensures var st' := Step(st, Remove(c)); WellFormed(st') && st'.sh.active == st.sh.active && !Covered(st', addr)
  {
    StepWellFormed(st, Remove(c));
    forall d: nat | d < |st.phase| ensures !Carries(Step(st, Remove(c)), d, addr) {
      assert !Carries(st, d, addr);
    }
  }

  lemma JoinRemembersNoMore(st: State, addr: string, dialOk: bool)
    requires WellFormed(st) && JoinsLost(st, Subscribe(addr, dialOk)) && WellFormed(Step(st, Subscribe(addr, dialOk)))
    ensures Remembered(Step(st, Subscribe(addr, dialOk)), addr) <==> Remembered(st, addr)
  {
    var st' := Step(st, Subscribe(addr, dialOk));
    assert FirstWithRoom(st.sh, 0).value in st.sh.conns;
    assert forall c: nat :: c < |st.phase| ==> (RemembersAt(st', c, addr) <==> RemembersAt(st, c, addr));
  }

  lemma RemoveRemembersNoMore(st: State, c: nat, addr: string)
    requires WellFormed(st) && Enabled(st, Remove(c)) && WellFormed(Step(st, Remove(c)))
    ensures Remembered(Step(st, Remove(c)), addr) <==> Remembered(st, addr)
  {
    var st' := Step(st, Remove(c));
    assert forall d: nat :: d < |st.phase| ==> (RemembersAt(st', d, addr) <==> RemembersAt(st, d, addr));
  }

  /** An address that joined a lost connection is dropped when that connection is unlisted: it stays active,
      so subscribing it again does nothing, yet nothing carries it. It is then lost for good, unless a goroutine
      still remembers it from an earlier subscription. */
  lemma LateJoinIsLost(st: State, addr: string, dialOk: bool)
    requires WellFormed(st) && JoinsLost(st, Subscribe(addr, dialOk)) && !Covered(st, addr)
    requires st.phase[FirstWithRoom(st.sh, 0).value].Dropping?
    ensures var evs := [Subscribe(addr, dialOk), Remove(FirstWithRoom(st.sh, 0).value)];
      && Exec(st, evs).Some?
      && var st' := Exec(st, evs).value;
      && addr in st'.sh.active && !Covered(st', addr)
      && Step(st', Subscribe(addr, true)) == st'
      && (LostForGood(st', addr) <==> !Remembered(st, addr))
  {
    var sub, rem := Subscribe(addr, dialOk), Remove(FirstWithRoom(st.sh, 0).value);
    JoinsTheLost(st, addr, dialOk);
    RemoveCoversNoMore(Step(st, sub), rem.c, addr);
    TwoSteps(st, sub, rem);
    JoinRemembersNoMore(st, addr, dialOk);
    RemoveRemembersNoMore(Step(st, sub), rem.c, addr);
    LostForGoodIff(Step(Step(st, sub), rem), addr);
  }

  /** Connection 0 carries address a, and has lost its read but is still listed. */
  ghost function Losing(a: string): State {
    State(Shared({a}, [0], [{a}]), [Dropping({a})], {})
  }

  lemma FirstSubscribe(a: string)
    ensures Step(Initial, Subscribe(a, true)) == State(Shared({a}, [0], [{a}]), [Reading], {})
  {
  }

  lemma FirstReadFails(a: string)
    ensures var st := State(Shared({a}, [0], [{a}]), [Reading], {});
      WellFormed(st) && Step(st, ReadFails(0)) == Losing(a) && Exec(st, [ReadFails(0)]) == Some(Losing(a))
  {
    var st := State(Shared({a}, [0], [{a}]), [Reading], {});
    assert Step(st, ReadFails(0)) == Losing(a);
    assert Exec(Losing(a), [ReadFails(0)][1..]) == Some(Losing(a));
  }

  lemma LosingIsReached(a: string)
    ensures Exec(Initial, [Subscribe(a, true), ReadFails(0)]) == Some(Losing(a))
  {
    FirstSubscribe(a);
    FirstReadFails(a);
    assert [Subscribe(a, true), ReadFails(0)][1..] == [ReadFails(0)];
  }

  lemma LosingTakesMore(a: string, b: string)
    requires a != b
    ensures WellFormed(Losing(a)) && JoinsLost(Losing(a), Subscribe(b, true)) && !Remembered(Losing(a), b)
    ensures FirstWithRoom(Losing(a).sh, 0) == Some(0)
  {
    assert |{a}| == 1;
    assert FirstWithRoom(Losing(a).sh, 0) == Some(0);
  }

  /** The situation is reachable: after a subscribe and a failed read, any other address joins the lost connection and
      is lost for good. */
  lemma LateJoinHappens(a: string, b: string)
    requires a != b
    ensures var run := [Subscribe(a, true), ReadFails(0)] + [Subscribe(b, true), Remove(0)];
      Exec(Initial, run).Some? && b in Exec(Initial, run).value.sh.active && LostForGood(Exec(Initial, run).value, b)
  {
    LosingIsReached(a);
    LosingTakesMore(a, b);
    if Covered(Losing(a), b) {
      CarriersRemember(Losing(a), b);
    }
    LateJoinIsLost(Losing(a), b, true);
    ExecConcat(Initial, [Subscribe(a, true), ReadFails(0)], [Subscribe(b, true), Remove(0)]);
  }

  /** An address whose own new connection fails before it is there is active, and covered only if a goroutine carries it
      from before. It is lost for good exactly when none remembers it from before. */
  lemma DialedIsLost(st: State, addr: string)
    requires WellFormed(st) && Enabled(st, DialedAndLost(addr))
    ensures var st' := Step(st, DialedAndLost(addr));
      && WellFormed(st') && addr in st'.sh.active && Step(st', Subscribe(addr, true)) == st'
      && (Covered(st', addr) <==> Covered(st, addr))
      && (LostForGood(st', addr) <==> !Remembered(st, addr))
  {
    var st' := Step(st, DialedAndLost(addr));
    StepWellFormed(st, DialedAndLost(addr));
    NewAddressCovered(st, DialedAndLost(addr));
    assert forall c: nat :: c < |st.phase| ==> (RemembersAt(st', c, addr) <==> RemembersAt(st, c, addr));
    assert !RemembersAt(st', |st.phase|, addr);
    LostForGoodIff(st', addr);
  }

  /** One Subscribe on the empty stream can lose its address. */
  lemma DialedAndLostHappens(a: string)
    ensures Exec(Initial, [DialedAndLost(a)]).Some?
    ensures var st := Exec(Initial, [DialedAndLost(a)]).value; a in st.sh.active && LostForGood(st, a)
  {
    DialedIsLost(Initial, a);
    OneStep(Initial, DialedAndLost(a));
  }

  /** Connection 0 carries some addresses and is listed, but the context that its reading goroutine runs under was
      cancelled. */
  ghost function Unread(addrs: set<string>): State {
    State(Shared(addrs, [0], [addrs]), [Finished], {})
  }

  lemma UnreadRemembersNothing(addrs: set<string>, addr: string)
    ensures WellFormed(Unread(addrs)) && !Remembered(Unread(addrs), addr)
  {
  }

  lemma UnreadTakesMore(a: string, b: string)
    requires a != b
    ensures WellFormed(Unread({a})) && Step(Unread({a}), Subscribe(b, true)) == Unread({a, b})
  {
    assert |{a}| == 1;
    assert FirstWithRoom(Unread({a}).sh, 0) == Some(0);
    assert {a} + {b} == {a, b};
  }

  lemma FirstCancelled(a: string)
    ensures var st := State(Shared({a}, [0], [{a}]), [Reading], {});
      WellFormed(st) && Enabled(st, Cancelled(0)) && Step(st, Cancelled(0)) == Unread({a})
  {
  }

  lemma UnreadIsReached(a: string)
    ensures Exec(Initial, [Subscribe(a, true), Cancelled(0)]) == Some(Unread({a}))
  {
    FirstSubscribe(a);
    FirstCancelled(a);
    TwoSteps(Initial, Subscribe(a, true), Cancelled(0));
  }

  /** Cancelling the context of the subscriber that dialed a connection leaves it listed and unread: its own address
      and one subscribed later are active and lost for good. */
  lemma UnreadJoinHappens(a: string, b: string)
    requires a != b
    ensures Exec(Initial, [Subscribe(a, true), Cancelled(0), Subscribe(b, true)]) == Some(Unread({a, b}))
    ensures WellFormed(Unread({a, b})) && LostForGood(Unread({a, b}), a) && LostForGood(Unread({a, b}), b)
  {
    var before, last := [Subscribe(a, true), Cancelled(0)], [Subscribe(b, true)];
    UnreadIsReached(a);
    UnreadTakesMore(a, b);
    UnreadRemembersNothing({a, b}, a);
    UnreadRemembersNothing({a, b}, b);
    LostForGoodIff(Unread({a, b}), a);
    LostForGoodIff(Unread({a, b}), b);
    assert Exec(Unread({a}), last) == Exec(Unread({a, b}), []) by {
      assert last[1..] == [];
    }
    ExecConcat(Initial, before, last);
    assert before + last == [Subscribe(a, true), Cancelled(0), Subscribe(b, true)];
  }

  // ---- closed connections ----

  /** The goroutine of a connection that holds no address it could resubscribe. */
  ghost predicate Idle(p: Phase) {
    p == Reading || p == Finished || p == Dropping({}) || p == Waiting({})
  }

  ghost predicate MayRedial(st: State, c: nat)
    requires WellFormed(st)
  {
    exists evs :: Exec(st, evs).Some? && c < |Exec(st, evs).value.phase| && Exec(st, evs).value.phase[c].Dialing?
  }

  lemma {:induction false} ClosedStaysIdle(st: State, c: nat, evs: seq<Event>)
    requires WellFormed(st) && c in st.closed && Idle(st.phase[c]) && Exec(st, evs).Some?
    ensures c in Exec(st, evs).value.closed && Idle(Exec(st, evs).value.phase[c])
    decreases |evs|
  {
    if evs != [] {
      StepWellFormed(st, evs[0]);
      ClosedStaysIdle(Step(st, evs[0]), c, evs[1..]);
    }
  }

  lemma MayRedialBefore(st: State, ev: Event, c: nat)
    requires WellFormed(st) && Enabled(st, ev) && WellFormed(Step(st, ev)) && MayRedial(Step(st, ev), c)
    ensures MayRedial(st, c)
  {
    var evs :| Exec(Step(st, ev), evs).Some? && c < |Exec(Step(st, ev), evs).value.phase|
      && Exec(Step(st, ev), evs).value.phase[c].Dialing?;
    assert ([ev] + evs)[0] == ev && ([ev] + evs)[1..] == evs;
    assert Exec(st, [ev] + evs) == Exec(Step(st, ev), evs);
  }

  lemma WaitingMayRedial(st: State, c: nat)
    requires WellFormed(st) && c < |st.phase| && st.phase[c].Waiting? && st.phase[c].addrs != {}
    ensures MayRedial(st, c)
  {
    var x :| x in st.phase[c].addrs;
    var sub, check := Subscribe(x, true), Recheck(c);
    StepWellFormed(st, sub);
    var st1 := Step(st, sub);
    SubscribeFrame(st, x, true, c, x);
    assert x in st1.phase[c].addrs * st1.sh.active;
    StepWellFormed(st1, check);
    assert Exec(Step(st1, check), []).value.phase[c].Dialing?;
    MayRedialBefore(st1, check, c);
    MayRedialBefore(st, sub, c);
  }

  /** A connection closed because it emptied redials in some continuation exactly when its read had failed,
      with addresses still on it, before it was closed. */
  lemma ClosedRedialsIff(st: State, c: nat)
    requires WellFormed(st) && c in st.closed
    ensures MayRedial(st, c) <==> !Idle(st.phase[c])
  {
    match st.phase[c]
    case Dialing(_, _) => assert Exec(st, []) == Some(st);
    case Waiting(addrs) =>
      if addrs == {} {
        IdleNeverRedials(st, c);
      } else {
        WaitingMayRedial(st, c);
      }
    case Dropping(addrs) =>
      if addrs == {} {
        IdleNeverRedials(st, c);
      } else {
        StepWellFormed(st, Remove(c));
        WaitingMayRedial(Step(st, Remove(c)), c);
        MayRedialBefore(st, Remove(c), c);
      }
    case _ => IdleNeverRedials(st, c);
  }

  lemma IdleNeverRedials(st: State, c: nat)
    requires WellFormed(st) && c in st.closed && Idle(st.phase[c])
    ensures !MayRedial(st, c)
  {
    forall evs | Exec(st, evs).Some?
      ensures c < |Exec(st, evs).value.phase| ==> !Exec(st, evs).value.phase[c].Dialing?
    {
      ClosedStaysIdle(st, c, evs);
    }
  }

  /** Connection 0 was closed because it emptied, but its goroutine still remembers address a. */
  ghost function ClosedLosing(a: string): State {
    State(Shared({}, [], [{}]), [Dropping({a})], {0})
  }

  lemma LosingUnsubscribed(a: string)
    ensures WellFormed(Losing(a)) && Step(Losing(a), Unsubscribe(a)) == ClosedLosing(a)
  {
    var sh := Losing(a).sh;
    assert FirstHolding(sh, a, 0) == Some(0) && sh.subs[0] == {a};
    assert Emptied(sh, a) == Some(0);
    WithoutOnly(0);
    var none := {a} - {a};
    assert none == {} && [{a}][0 := none] == [none];
    assert Unsubscribed(sh, a) == Shared({}, [], [{}]);
  }

  lemma ClosedLosingMayRedial(a: string)
    ensures WellFormed(ClosedLosing(a)) && MayRedial(ClosedLosing(a), 0)
  {
    ClosedRedialsIff(ClosedLosing(a), 0);
  }

  lemma ClosedLosingIsNext(a: string)
    ensures WellFormed(Losing(a)) && Exec(Losing(a), [Unsubscribe(a)]) == Some(ClosedLosing(a))
  {
    LosingUnsubscribed(a);
    StepWellFormed(Losing(a), Unsubscribe(a));
    assert [Unsubscribe(a)][1..] == [];
    assert Exec(ClosedLosing(a), []) == Some(ClosedLosing(a));
  }

  /** Such a connection is reachable: after a subscribe, a failed read and an unsubscribe, connection 0 is closed
      because it emptied, and may still redial. */
  lemma ClosedRedialHappens(a: string)
    ensures Exec(Initial, [Subscribe(a, true), ReadFails(0), Unsubscribe(a)]) == Some(ClosedLosing(a))
    ensures WellFormed(ClosedLosing(a)) && 0 in ClosedLosing(a).closed && MayRedial(ClosedLosing(a), 0)
  {
    LosingIsReached(a);
    ClosedLosingIsNext(a);
    ClosedLosingMayRedial(a);
    var before, last := [Subscribe(a, true), ReadFails(0)], [Unsubscribe(a)];
    ExecConcat(Initial, before, last);
    assert before + last == [Subscribe(a, true), ReadFails(0), Unsubscribe(a)];
  }

  // ---- runs without drops ----

  /** A run of enabled events in which no connection is lost: a read fails only on a connection that the stream closed
      itself. What the goroutines of closed connections then do, and cancelled contexts, are part of such a run. */
  ghost predicate DropFree(st: State, evs: seq<Event>)
    requires WellFormed(st)
    decreases |evs|
  {
    evs == [] ||
    (&& Enabled(st, evs[0]) && !evs[0].DialedAndLost? && (evs[0].ReadFails? ==> evs[0].c in st.closed)
     && (StepWellFormed(st, evs[0]); DropFree(Step(st, evs[0]), evs[1..])))
  }

  /** Only goroutines of closed connections handle a loss, and they remember no address. */
  ghost predicate Undropped(st: State) {
    forall c :: 0 <= c < |st.phase| ==>
      || st.phase[c] == Reading || st.phase[c] == Finished
      || (c in st.closed && (st.phase[c] == Dropping({}) || st.phase[c] == Waiting({})))
  }

  ghost predicate Carrying(sh: Shared, c: nat, addr: string)
    requires InRange(sh)
  {
    c in sh.conns && addr in sh.subs[c]
  }

  /** The listed connections partition the active addresses into non-empty parts. */
  ghost predicate Partitioned(sh: Shared)
    requires InRange(sh)
  {
    && (forall c :: c in sh.conns ==> sh.subs[c] != {})
    && (forall c, d, addr :: Carrying(sh, c, addr) && Carrying(sh, d, addr) ==> c == d)
    && (forall addr :: addr in sh.active <==> exists c :: Carrying(sh, c, addr))
  }

  lemma SubscribedCarrying(sh: Shared, addr: string, dialOk: bool) returns (at: nat)
    requires InRange(sh) && addr !in sh.active
    requires addr in Subscribed(sh, addr, dialOk).active
    ensures var sh' := Subscribed(sh, addr, dialOk);
      && InRange(sh') && Carrying(sh', at, addr)
      && (forall c, a :: Carrying(sh', c, a) <==> Carrying(sh, c, a) || (c == at && a == addr))
      && (forall c :: c in sh'.conns ==> c == at || (c in sh.conns && sh'.subs[c] == sh.subs[c]))
  {
    var target := FirstWithRoom(sh, 0);
    at := if target.Some? then target.value else |sh.subs|;
    assert target.Some? ==> at in sh.conns;
  }

  lemma SubscribeKeepsPartition(sh: Shared, addr: string, dialOk: bool)
    requires InRange(sh) && Partitioned(sh)
    ensures InRange(Subscribed(sh, addr, dialOk)) && Partitioned(Subscribed(sh, addr, dialOk))
  {
    var sh' := Subscribed(sh, addr, dialOk);
    if sh' != sh {
      var at := SubscribedCarrying(sh, addr, dialOk);
      forall a ensures a in sh'.active <==> exists c :: Carrying(sh', c, a) {
        if a in sh.active {
          var c :| Carrying(sh, c, a);
          assert Carrying(sh', c, a);
        }
      }
    }
  }

  lemma UnsubscribedCarrying(sh: Shared, addr: string) returns (at: nat)
    requires InRange(sh) && Partitioned(sh) && addr in sh.active
    ensures var sh' := Unsubscribed(sh, addr);
      && InRange(sh') && sh'.active == sh.active - {addr}
      && (forall c, a :: Carrying(sh', c, a) <==> Carrying(sh, c, a) && a != addr)
      && (forall c :: c in sh'.conns ==> sh'.subs[c] != {})
  {
    at :| Carrying(sh, at, addr);
    var holder := FirstHolding(sh, addr, 0);
    assert holder.Some? ==> Carrying(sh, holder.value, addr);
    assert holder == Some(at);
    var sh' := Unsubscribed(sh, addr);
    forall c: nat, a ensures Carrying(sh', c, a) <==> Carrying(sh, c, a) && a != addr {
      if c != at && Carrying(sh, c, a) {
        assert !Carrying(sh, c, addr);
        assert sh'.subs[c] == sh.subs[c];
      }
    }
    if sh.subs[at] != {addr} {
      var other :| other in sh.subs[at] && other != addr;
      assert other in sh'.subs[at];
    }
  }

  lemma UnsubscribeKeepsPartition(sh: Shared, addr: string)
    requires InRange(sh) && Partitioned(sh)
    ensures InRange(Unsubscribed(sh, addr)) && Partitioned(Unsubscribed(sh, addr))
  {
    var sh' := Unsubscribed(sh, addr);
    if addr in sh.active {
      var at := UnsubscribedCarrying(sh, addr);
      forall a ensures a in sh'.active <==> exists c :: Carrying(sh', c, a) {
        if a in sh'.active {
          var c :| Carrying(sh, c, a);
          assert Carrying(sh', c, a);
        }
      }
    }
  }

  lemma {:induction false} UnlistedStays(list: seq<nat>, c: nat)
    requires c !in list
    ensures Without(list, c) == list
  {
    if list != [] {
      assert list[0] in list && list == [list[0]] + list[1..];
      UnlistedStays(list[1..], c);
    }
  }

  lemma StepStaysUndropped(st: State, ev: Event)
    requires WellFormed(st) && Undropped(st) && Enabled(st, ev)
    requires !ev.DialedAndLost? && (ev.ReadFails? ==> ev.c in st.closed)
    ensures Undropped(Step(st, ev))
  {
  }

  lemma StepKeepsPartition(st: State, ev: Event)
    requires WellFormed(st) && Undropped(st) && Partitioned(st.sh)
    requires Enabled(st, ev) && !ev.DialedAndLost? && WellFormed(Step(st, ev))
    ensures Partitioned(Step(st, ev).sh)
  {
    match ev
    case Subscribe(addr, dialOk) => SubscribeKeepsPartition(st.sh, addr, dialOk);
    case Unsubscribe(addr) => UnsubscribeKeepsPartition(st.sh, addr);
    case Remove(c) => UnlistedStays(st.sh.conns, c);
    case _ =>
  }

  /** Without drops, the connections' address sets always partition the active set. */
  lemma {:induction false} PartitionHolds(st: State, evs: seq<Event>)
    requires WellFormed(st) && Undropped(st) && Partitioned(st.sh) && DropFree(st, evs)
    ensures Exec(st, evs).Some? && Partitioned(Exec(st, evs).value.sh)
    decreases |evs|
  {
    if evs != [] {
      StepWellFormed(st, evs[0]);
      StepStaysUndropped(st, evs[0]);
      StepKeepsPartition(st, evs[0]);
      PartitionHolds(Step(st, evs[0]), evs[1..]);
    }
  }

  ghost predicate SubscribesOnly(evs: seq<Event>) {
    forall i :: 0 <= i < |evs| ==> evs[i].Subscribe? && evs[i].dialOk
  }

  /** Every connection but the newest is full. */
  ghost predicate Packed(sh: Shared)
    requires InRange(sh)
  {
    var n := |sh.conns|;
    && (forall c :: c in sh.conns ==> sh.subs[c] <= sh.active)
    && (forall i :: 0 <= i < n - 1 ==> |sh.subs[sh.conns[i]]| == MAX_SUBS_PER_CONN)
    && (n == 0 ==> sh.active == {})
    && (n > 0 ==> 0 < |sh.subs[sh.conns[n - 1]]| <= MAX_SUBS_PER_CONN)
    && (n > 0 ==> |sh.active| == MAX_SUBS_PER_CONN * (n - 1) + |sh.subs[sh.conns[n - 1]]|)
  }

  lemma LastHasRoom(sh: Shared)
    requires InRange(sh) && Packed(sh) && FirstWithRoom(sh, 0).Some?
    ensures sh.conns != [] && FirstWithRoom(sh, 0).value == sh.conns[|sh.conns| - 1]
  {
    var i :| 0 <= i < |sh.conns| && sh.conns[i] == FirstWithRoom(sh, 0).value;
    assert i == |sh.conns| - 1;
  }

  lemma JoinKeepsPacked(sh: Shared, addr: string)
    requires InRange(sh) && Distinct(sh.conns) && Packed(sh)
    requires addr !in sh.active && FirstWithRoom(sh, 0).Some?
    ensures InRange(Subscribed(sh, addr, true)) && Packed(Subscribed(sh, addr, true))
  {
    LastHasRoom(sh);
    var n, t := |sh.conns|, FirstWithRoom(sh, 0).value;
    var sh' := Subscribed(sh, addr, true);
    assert t in sh.conns && addr !in sh.subs[t];
    assert |sh'.subs[t]| == |sh.subs[t]| + 1 && |sh'.active| == |sh.active| + 1;
    forall i | 0 <= i < n - 1 ensures |sh'.subs[sh'.conns[i]]| == MAX_SUBS_PER_CONN {
      assert sh.conns[i] != sh.conns[n - 1];
    }
  }

  lemma DialKeepsPacked(sh: Shared, addr: string)
    requires InRange(sh) && Packed(sh)
    requires addr !in sh.active && FirstWithRoom(sh, 0).None?
    ensures InRange(Subscribed(sh, addr, true)) && Packed(Subscribed(sh, addr, true))
  {
    var n := |sh.conns|;
    var sh' := Subscribed(sh, addr, true);
    assert sh' == Shared(sh.active + {addr}, sh.conns + [|sh.subs|], sh.subs + [{addr}]);
    assert sh'.conns[n] == |sh.subs| && sh'.subs[|sh.subs|] == {addr};
    assert |sh'.active| == |sh.active| + 1;
    assert forall i :: 0 <= i < n ==> |sh.subs[sh.conns[i]]| >= MAX_SUBS_PER_CONN;
  }

  lemma SubscribeKeepsPacked(sh: Shared, addr: string)
    requires InRange(sh) && Distinct(sh.conns) && Packed(sh)
    ensures InRange(Subscribed(sh, addr, true)) && Packed(Subscribed(sh, addr, true))
  {
    if addr !in sh.active {
      if FirstWithRoom(sh, 0).Some? {
        JoinKeepsPacked(sh, addr);
      } else {
        DialKeepsPacked(sh, addr);
      }
    }
  }

  /** Subscribing only, with every dial succeeding, uses the least number of connections. */
  lemma {:induction false} ConnectionCount(st: State, evs: seq<Event>)
    requires WellFormed(st) && Packed(st.sh) && SubscribesOnly(evs)
    ensures Exec(st, evs).Some?
    ensures var sh := Exec(st, evs).value.sh;
      |sh.conns| == (|sh.active| + 29) / 30
    decreases |evs|
  {
    if evs != [] {
      StepWellFormed(st, evs[0]);
      SubscribeKeepsPacked(st.sh, evs[0].addr);
      ConnectionCount(Step(st, evs[0]), evs[1..]);
    }
  }

  /** From the empty stream: the results above for the program's own runs. */
  lemma FreshStream(evs: seq<Event>)
    ensures Exec(Initial, evs).Some? ==> Capped(Exec(Initial, evs).value)
    ensures Exec(Initial, evs).Some? ==> (AlwaysCovered(Initial, evs) <==> SafeRun(Initial, evs))
    ensures DropFree(Initial, evs) ==> Exec(Initial, evs).Some? && Partitioned(Exec(Initial, evs).value.sh)
    ensures SubscribesOnly(evs) ==>
      (&& Exec(Initial, evs).Some?
       && var sh := Exec(Initial, evs).value.sh;
       && |sh.conns| == (|sh.active| + 29) / 30)
  {
    if Exec(Initial, evs).Some? {
      CapHolds(Initial, evs);
      CoverageIff(Initial, evs);
    }
    if DropFree(Initial, evs) {
      PartitionHolds(Initial, evs);
    }
    if SubscribesOnly(evs) {
      ConnectionCount(Initial, evs);
    }
  }
}
