/** What redials do to the listed connections: when an address can end up on two of them, or stay on one after it was
    unsubscribed. */
module UserStreamRedials {
  import opened Basics
  import opened UserStream

  /** Listed connections carry only active addresses, and no two of them the same one. */
  ghost predicate ServedOnce(sh: Shared)
    requires InRange(sh)
  {
    && (forall c, addr :: Carrying(sh, c, addr) ==> addr in sh.active)
    && (forall c, d, addr :: Carrying(sh, c, addr) && Carrying(sh, d, addr) ==> c == d)
  }

  /** What a second activity check, under the lock that attaches the new connection, would test. */
  ghost predicate Attachable(sh: Shared, toSub: set<string>)
    requires InRange(sh)
  {
    forall addr :: addr in toSub ==> addr in sh.active && forall c :: !Carrying(sh, c, addr)
  }

  lemma SubscribeKeepsOnce(sh: Shared, addr: string, dialOk: bool)
    requires InRange(sh) && ServedOnce(sh)
    ensures InRange(Subscribed(sh, addr, dialOk)) && ServedOnce(Subscribed(sh, addr, dialOk))
  {
    if Subscribed(sh, addr, dialOk) != sh {
      var at := SubscribedCarrying(sh, addr, dialOk);
    }
  }

  lemma UnsubscribedServed(sh: Shared, addr: string)
    requires InRange(sh) && ServedOnce(sh) && addr in sh.active
    ensures var sh' := Unsubscribed(sh, addr);
      InRange(sh') && forall c, a :: Carrying(sh', c, a) ==> Carrying(sh, c, a) && a != addr
  {
    var holder := FirstHolding(sh, addr, 0);
    assert holder.Some? ==> Carrying(sh, holder.value, addr);
    var sh' := Unsubscribed(sh, addr);
    forall c: nat, a | Carrying(sh', c, a) ensures Carrying(sh, c, a) && a != addr {
      assert c in sh.conns;
      assert holder != Some(c) ==> sh'.subs[c] == sh.subs[c] && !Carrying(sh, c, addr);
    }
  }

  lemma UnsubscribeKeepsOnce(sh: Shared, addr: string)
    requires InRange(sh) && ServedOnce(sh)
    ensures InRange(Unsubscribed(sh, addr)) && ServedOnce(Unsubscribed(sh, addr))
  {
    if addr in sh.active {
      UnsubscribedServed(sh, addr);
    }
  }

  lemma RemoveKeepsOnce(sh: Shared, dead: nat)
    requires InRange(sh) && ServedOnce(sh)
    ensures InRange(Removed(sh, dead)) && ServedOnce(Removed(sh, dead))
  {
    forall c, addr | Carrying(Removed(sh, dead), c, addr) ensures Carrying(sh, c, addr) {
    }
  }

  lemma ReattachedCarrying(sh: Shared, toSub: set<string>)
    requires InRange(sh)
    ensures InRange(Reattached(sh, toSub)) && |sh.subs| !in sh.conns
    ensures forall c, addr ::
      Carrying(Reattached(sh, toSub), c, addr) <==> Carrying(sh, c, addr) || (c == |sh.subs| && addr in toSub)
  {
  }

  lemma AttachKeepsOnceIff(sh: Shared, toSub: set<string>)
    requires InRange(sh) && ServedOnce(sh)
    ensures InRange(Reattached(sh, toSub)) && (ServedOnce(Reattached(sh, toSub)) <==> Attachable(sh, toSub))
  {
    var sh' := Reattached(sh, toSub);
    ReattachedCarrying(sh, toSub);
    if ServedOnce(sh') {
      forall addr | addr in toSub ensures addr in sh.active && forall c :: !Carrying(sh, c, addr) {
        assert Carrying(sh', |sh.subs|, addr);
        assert forall c :: Carrying(sh, c, addr) ==> Carrying(sh', c, addr) && c != |sh.subs|;
      }
    }
  }

  ghost predicate CleanRedial(st: State, ev: Event)
    requires WellFormed(st) && Enabled(st, ev)
  {
    ev.DialSucceeds? ==> Attachable(st.sh, st.phase[ev.c].toSub)
  }

  /** Only a redial can break it, and does exactly when an address it attaches is no longer active or carried again. */
  lemma StepKeepsOnceIff(st: State, ev: Event)
    requires WellFormed(st) && Enabled(st, ev) && ServedOnce(st.sh)
    ensures WellFormed(Step(st, ev)) && (ServedOnce(Step(st, ev).sh) <==> CleanRedial(st, ev))
  {
    StepWellFormed(st, ev);
    match ev
    case Subscribe(addr, dialOk) => SubscribeKeepsOnce(st.sh, addr, dialOk);
    case DialedAndLost(addr) => SubscribeKeepsOnce(st.sh, addr, true);
    case Unsubscribe(addr) => UnsubscribeKeepsOnce(st.sh, addr);
    case Remove(c) => RemoveKeepsOnce(st.sh, c);
    case DialSucceeds(c) => AttachKeepsOnceIff(st.sh, st.phase[c].toSub);
    case _ =>
  }

  ghost predicate CleanRedials(st: State, evs: seq<Event>)
    requires WellFormed(st)
    decreases |evs|
  {
    evs == [] ||
    (&& Enabled(st, evs[0]) && CleanRedial(st, evs[0])
     && (StepWellFormed(st, evs[0]); CleanRedials(Step(st, evs[0]), evs[1..])))
  }

  /** In every state the run passes through. */
  ghost predicate AlwaysServedOnce(st: State, evs: seq<Event>)
    requires WellFormed(st)
    decreases |evs|
  {
    && ServedOnce(st.sh)
    && (evs == [] ||
        (&& Enabled(st, evs[0])
         && (StepWellFormed(st, evs[0]); AlwaysServedOnce(Step(st, evs[0]), evs[1..]))))
  }

  /** In every interleaving, drops and cancellations included: the listed connections carry only active addresses, each
      at most once, throughout the run exactly when every redial that came through attached only addresses that were
      still active and that nothing carried again. */
  lemma {:induction false} ServedOnceIff(st: State, evs: seq<Event>)
    requires WellFormed(st) && ServedOnce(st.sh) && Exec(st, evs).Some?
    ensures AlwaysServedOnce(st, evs) <==> CleanRedials(st, evs)
    decreases |evs|
  {
    if evs != [] {
      StepKeepsOnceIff(st, evs[0]);
      if CleanRedial(st, evs[0]) {
        ServedOnceIff(Step(st, evs[0]), evs[1..]);
      }
    }
  }

  // ---- what a redial attaches ----

  ghost predicate NoRecheck(evs: seq<Event>, c: nat) {
    forall k :: 0 <= k < |evs| ==> evs[k] != Recheck(c)
  }

  /** Past its activity check, a goroutine keeps what it found until it is done or checks again. */
  lemma StepKeepsFound(st: State, ev: Event, c: nat)
    requires WellFormed(st) && Enabled(st, ev) && WellFormed(Step(st, ev)) && ev != Recheck(c)
    requires c < |st.phase| && Step(st, ev).phase[c].Dialing?
    ensures st.phase[c] == Step(st, ev).phase[c]
  {
  }

  lemma {:induction false} RunKeepsFound(st: State, evs: seq<Event>, c: nat)
    requires WellFormed(st) && Exec(st, evs).Some? && NoRecheck(evs, c)
    requires c < |st.phase| && c < |Exec(st, evs).value.phase| && Exec(st, evs).value.phase[c].Dialing?
    ensures st.phase[c] == Exec(st, evs).value.phase[c]
    decreases |evs|
  {
    if evs != [] {
      StepWellFormed(st, evs[0]);
      assert evs[0] != Recheck(c) && forall k :: 0 <= k < |evs[1..]| ==> evs[1..][k] == evs[k + 1];
      RunKeepsFound(Step(st, evs[0]), evs[1..], c);
      StepKeepsFound(st, evs[0], c);
    }
  }

  /** The activity check: the goroutine goes on to dial for exactly the addresses it remembers that are active now, and
      ends when there are none. */
  lemma RecheckFinds(st: State, c: nat)
    requires WellFormed(st) && Enabled(st, Recheck(c))
    ensures var st' := Step(st, Recheck(c));
      && st'.sh == st.sh
      && (st'.phase[c].Finished? <==> forall a :: a in st.phase[c].addrs ==> a !in st.sh.active)
      && (!st'.phase[c].Finished? ==>
            && st'.phase[c].Dialing? && st'.phase[c].addrs == st.phase[c].addrs
            && forall a :: a in st'.phase[c].toSub <==> a in st.phase[c].addrs && a in st.sh.active)
  {
    var found := set a | a in st.phase[c].addrs && a in st.sh.active;
    assert found == st.phase[c].addrs * st.sh.active;
    if forall a :: a in st.phase[c].addrs ==> a !in st.sh.active {
      assert found == {};
    } else {
      var a :| a in st.phase[c].addrs && a in st.sh.active;
      assert a in found;
    }
  }

  /** A redial that came through: a new listed connection carries exactly what the check found; all others stay. */
  lemma RedialAttaches(st: State, c: nat)
    requires WellFormed(st) && Enabled(st, DialSucceeds(c))
    ensures var st' := Step(st, DialSucceeds(c));
      && InRange(st'.sh) && st'.sh.active == st.sh.active && |st'.phase| == |st.phase| + 1
      && st'.phase[|st.phase|] == Reading && st'.phase[c] == Finished
      && (forall d, a :: Carrying(st'.sh, d, a)
            <==> Carrying(st.sh, d, a) || (d == |st.phase| && a in st.phase[c].toSub))
  {
    ReattachedCarrying(st.sh, st.phase[c].toSub);
  }

  /** In every run: whatever happens between a check and the redial it leads to, the new connection carries exactly the
      addresses that were remembered and active when the check was made. */
  lemma RedialCarriesWhatWasActive(st: State, pre: seq<Event>, mid: seq<Event>, c: nat)
    requires WellFormed(st) && Exec(st, pre).Some? && NoRecheck(mid, c)
    requires Enabled(Exec(st, pre).value, Recheck(c))
    requires Exec(st, pre + [Recheck(c)] + mid).Some?
    requires Enabled(Exec(st, pre + [Recheck(c)] + mid).value, DialSucceeds(c))
    ensures var before, now := Exec(st, pre).value, Exec(st, pre + [Recheck(c)] + mid).value;
      forall a :: Carrying(Step(now, DialSucceeds(c)).sh, |now.phase|, a)
        <==> a in before.phase[c].addrs && a in before.sh.active
  {
    var before := Exec(st, pre).value;
    StepWellFormed(before, Recheck(c));
    OneStep(before, Recheck(c));
    ExecConcat(st, pre, [Recheck(c)]);
    ExecConcat(st, pre + [Recheck(c)], mid);
    RunKeepsFound(Step(before, Recheck(c)), mid, c);
    RecheckFinds(before, c);
    var now := Exec(st, pre + [Recheck(c)] + mid).value;
    RedialAttaches(now, c);
    ReattachedCarrying(now.sh, now.phase[c].toSub);
  }

  // ---- both failures happen ----

  /** Connection 0 is lost and its goroutine is dialing for the address it found active. */
  ghost function Redialing(a: string, active: set<string>): State {
    State(Shared(active, [], [{a}]), [Dialing({a}, {a})], {})
  }

  lemma RedialingIsReached(a: string)
    ensures Exec(Initial, [Subscribe(a, true), ReadFails(0), Remove(0), Recheck(0)]) == Some(Redialing(a, {a}))
  {
    var waiting := State(Shared({a}, [], [{a}]), [Waiting({a})], {});
    LosingIsReached(a);
    assert Step(Losing(a), Remove(0)) == waiting by {
      WithoutOnly(0);
    }
    assert Step(waiting, Recheck(0)) == Redialing(a, {a}) by {
      assert {a} * {a} == {a};
    }
    TwoSteps(Losing(a), Remove(0), Recheck(0));
    var before, last := [Subscribe(a, true), ReadFails(0)], [Remove(0), Recheck(0)];
    ExecConcat(Initial, before, last);
    assert before + last == [Subscribe(a, true), ReadFails(0), Remove(0), Recheck(0)];
  }

  lemma UnsubscribedMeanwhile(a: string)
    ensures WellFormed(Redialing(a, {a})) && WellFormed(Redialing(a, {}))
    ensures Step(Redialing(a, {a}), Unsubscribe(a)) == Redialing(a, {})
  {
    assert {a} - {a} == {};
  }

  /** Unsubscribed between the check and the attachment: connection 1 carries an address that nobody wants. */
  lemma RedialLeavesStale(a: string)
    ensures var run := [Subscribe(a, true), ReadFails(0), Remove(0), Recheck(0)] + [Unsubscribe(a), DialSucceeds(0)];
      && Exec(Initial, run).Some?
      && var sh := Exec(Initial, run).value.sh;
      && Carrying(sh, 1, a) && a !in sh.active
  {
    RedialingIsReached(a);
    UnsubscribedMeanwhile(a);
    TwoSteps(Redialing(a, {a}), Unsubscribe(a), DialSucceeds(0));
    ExecConcat(Initial, [Subscribe(a, true), ReadFails(0), Remove(0), Recheck(0)], [Unsubscribe(a), DialSucceeds(0)]);
  }

  lemma ResubscribedMeanwhile(a: string)
    ensures WellFormed(Redialing(a, {}))
    ensures Step(Redialing(a, {}), Subscribe(a, true))
      == State(Shared({a}, [1], [{a}, {a}]), [Dialing({a}, {a}), Reading], {})
  {
  }

  lemma AttachedAgain(a: string)
    ensures var again := State(Shared({a}, [1], [{a}, {a}]), [Dialing({a}, {a}), Reading], {});
      && WellFormed(again)
      && Step(again, DialSucceeds(0))
         == State(Shared({a}, [1, 2], [{a}, {a}, {a}]), [Finished, Reading, Reading], {})
  {
  }

  lemma RedialDoublesAfter(a: string)
    ensures WellFormed(Redialing(a, {})) && Exec(Redialing(a, {}), [Subscribe(a, true), DialSucceeds(0)])
      == Some(State(Shared({a}, [1, 2], [{a}, {a}, {a}]), [Finished, Reading, Reading], {}))
  {
    ResubscribedMeanwhile(a);
    AttachedAgain(a);
    TwoSteps(Redialing(a, {}), Subscribe(a, true), DialSucceeds(0));
  }

  /** Unsubscribed and subscribed again in between: connections 1 and 2 both carry it. */
  lemma RedialDoubles(a: string)
    ensures var run := [Subscribe(a, true), ReadFails(0), Remove(0), Recheck(0)]
                       + ([Unsubscribe(a)] + [Subscribe(a, true), DialSucceeds(0)]);
      && Exec(Initial, run).Some?
      && var sh := Exec(Initial, run).value.sh;
      && Carrying(sh, 1, a) && Carrying(sh, 2, a)
  {
    RedialingIsReached(a);
    UnsubscribedMeanwhile(a);
    RedialDoublesAfter(a);
    var last := [Subscribe(a, true), DialSucceeds(0)];
    assert Exec(Redialing(a, {a}), [Unsubscribe(a)]) == Some(Redialing(a, {})) by {
      assert [Unsubscribe(a)][1..] == [];
      assert Exec(Redialing(a, {}), []) == Some(Redialing(a, {}));
    }
    ExecConcat(Redialing(a, {a}), [Unsubscribe(a)], last);
    ExecConcat(Initial, [Subscribe(a, true), ReadFails(0), Remove(0), Recheck(0)], [Unsubscribe(a)] + last);
  }
}
