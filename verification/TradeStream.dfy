/** The public-trades stream: its coin universe, what it believes is subscribed, and what went on the wire. */
module TradeStream {
  import opened Basics

  const DEFAULT_MAX_COINS: nat := 300

  /** `sender` names the open connection; `wire` is every subscription frame that was written, and on which. */
  datatype State = State(coins: seq<string>, subscribed: set<string>, sender: Option<nat>, wire: seq<(nat, string)>)

  const Initial := State([], {}, None, [])

  ghost function SetOf(s: seq<string>): set<string> {
    set c | c in s
  }

  ghost function Frames(conn: nat, coins: seq<string>): seq<(nat, string)> {
    seq(|coins|, i requires 0 <= i < |coins| => (conn, coins[i]))
  }

  /** How many of the sends go through: all of them while disconnected, else those before the first failed write. */
  function SentCount(st: State, coins: seq<string>, failAt: Option<nat>): (n: nat)
    ensures n <= |coins|
  {
    if st.sender.Some? && failAt.Some? && failAt.value < |coins| then failAt.value else |coins|
  }

  /** Sending a list in order, marking each coin once its send returned. */
  ghost function AfterSends(st: State, coins: seq<string>, failAt: Option<nat>): State {
    var sent := coins[..SentCount(st, coins, failAt)];
    st.(subscribed := st.subscribed + SetOf(sent),
        wire := if st.sender.Some? then st.wire + Frames(st.sender.value, sent) else st.wire)
  }

  function Missing(coins: seq<string>, subscribed: set<string>): seq<string> {
    if coins == [] then []
    else
      Missing(coins[..|coins| - 1], subscribed)
      + if coins[|coins| - 1] in subscribed then [] else [coins[|coins| - 1]]
  }

  ghost function AfterSetCoins(st: State, coins: seq<string>, maxCoins: nat): State {
    if |coins| > maxCoins then st else st.(coins := coins)
  }

  ghost function AfterRefresh(st: State, coins: seq<string>, maxCoins: nat, failAt: Option<nat>): State {
    if |coins| > maxCoins then st
    else AfterSends(st.(coins := coins), Missing(coins, st.subscribed), failAt)
  }

  // ---- the steps ----

  datatype Event =
    | Set(coins: seq<string>)
    | Refresh(coins: seq<string>, failAt: Option<nat>)
    | Connect(conn: nat)
    | SubscribeAll(failAt: Option<nat>)
    | Disconnect

  ghost function Step(st: State, ev: Event, maxCoins: nat): State {
    match ev
    case Set(coins) => AfterSetCoins(st, coins, maxCoins)
    case Refresh(coins, failAt) => AfterRefresh(st, coins, maxCoins, failAt)
    case Connect(conn) => st.(sender := Some(conn), subscribed := {})
    case SubscribeAll(failAt) => AfterSends(st, st.coins, failAt)
    case Disconnect => st.(sender := None)
  }

  // ---- the program ----

  class Stream {
    const maxCoins: nat
    var coins: seq<string>
    var subscribed: set<string>
    var sender: Option<nat>
    var overCap: nat
    var subsSent: nat
    ghost var wire: seq<(nat, string)>

    ghost function View(): State
      reads this
    {
      State(coins, subscribed, sender, wire)
    }

    /** A cap of zero or less means the default. */
    constructor (maxCoins: int)
      ensures View() == Initial && overCap == subsSent == 0
      ensures this.maxCoins == if maxCoins <= 0 then 300 else maxCoins
    {
      this.maxCoins := if maxCoins <= 0 then DEFAULT_MAX_COINS else maxCoins;
      coins, subscribed, sender, overCap, subsSent, wire := [], {}, None, 0, 0, [];
    }

    method SetCoins(coins: seq<string>) returns (ok: bool)
      modifies this
      ensures View() == Step(old(View()), Set(coins), maxCoins)
      ensures ok == (|coins| <= maxCoins) && overCap == old(overCap) + if ok then 0 else 1
    {
      if |coins| > maxCoins {
        overCap := overCap + 1;
        return false;
      }
      this.coins := coins;
      return true;
    }

    /** One frame; a stream without a connection has nothing to send and reports success. */
    method Send(coin: string, writeFails: bool) returns (ok: bool)
      modifies this`subsSent, this`wire
      ensures ok == (sender.None? || !writeFails)
      ensures wire == if sender.Some? && ok then old(wire) + [(sender.value, coin)] else old(wire)
      ensures subsSent == old(subsSent) + if sender.Some? && ok then 1 else 0
    {
      if sender.None? {
        return true;
      }
      if writeFails {
        return false;
      }
      subsSent := subsSent + 1;
      wire := wire + [(sender.value, coin)];
      return true;
    }

    /** The sending loop of RefreshCoins and subscribeAll. */
    method SendEach(list: seq<string>, failAt: Option<nat>) returns (ok: bool)
      modifies this`subscribed, this`subsSent, this`wire
      ensures View() == AfterSends(old(View()), list, failAt)
      ensures ok == (SentCount(old(View()), list, failAt) == |list|)
    {
      assert list[..0] == [];
      for i := 0 to |list|
        invariant sender.Some? && failAt.Some? ==> i <= failAt.value
        invariant sender == old(sender) && coins == old(coins)
        invariant subscribed == old(subscribed) + SetOf(list[..i])
        invariant wire == if sender.Some? then old(wire) + Frames(sender.value, list[..i]) else old(wire)
      {
        var sent := Send(list[i], failAt == Some(i));
        if !sent {
          return false;
        }
        assert list[..i + 1] == list[..i] + [list[i]];
        assert sender.Some? ==>
          Frames(sender.value, list[..i + 1]) == Frames(sender.value, list[..i]) + [(sender.value, list[i])];
        subscribed := subscribed + {list[i]};
      }
      assert list[..|list|] == list;
      return true;
    }

    method RefreshCoins(coins: seq<string>, failAt: Option<nat>) returns (added: seq<string>, ok: bool)
      modifies this
      ensures View() == Step(old(View()), Refresh(coins, failAt), maxCoins)
      ensures |coins| > maxCoins ==> !ok && added == [] && overCap == old(overCap) + 1
      ensures |coins| <= maxCoins ==>
        added == Missing(coins, old(subscribed)) && ok == (SentCount(old(View()), added, failAt) == |added|)
    {
      if |coins| > maxCoins {
        overCap := overCap + 1;
        return [], false;
      }
      added := [];
      for i := 0 to |coins|
        invariant added == Missing(coins[..i], subscribed)
      {
        assert coins[..i + 1][..i] == coins[..i];
        if coins[i] !in subscribed {
          added := added + [coins[i]];
        }
      }
      assert coins[..|coins|] == coins;
      this.coins := coins;
      ok := SendEach(added, failAt);
    }

    method SubscribeAll(failAt: Option<nat>) returns (ok: bool)
      modifies this
      ensures View() == Step(old(View()), Event.SubscribeAll(failAt), maxCoins)
      ensures ok == (SentCount(old(View()), old(coins), failAt) == |old(coins)|)
    {
      ok := SendEach(coins, failAt);
    }

    /** The edges of connect: a new connection starts with nothing subscribed... */
    method Connected(conn: nat)
      modifies this
      ensures View() == Step(old(View()), Connect(conn), maxCoins)
      ensures View() == old(View()).(sender := Some(conn), subscribed := {})
    {
      sender, subscribed := Some(conn), {};
    }

    /** ...and when it ends only the sender is cleared. */
    method Disconnected()
      modifies this
      ensures View() == Step(old(View()), Disconnect, maxCoins)
      ensures View() == old(View()).(sender := None)
    {
      sender := None;
    }
  }

  // ---- runs ----

  ghost function Run(st: State, evs: seq<Event>, maxCoins: nat): State {
    if evs == [] then st else Step(Run(st, evs[..|evs| - 1], maxCoins), evs[|evs| - 1], maxCoins)
  }

  /** While connected, every coin marked subscribed was written on this very connection; the universe keeps its cap. */
  ghost predicate InStep(st: State, maxCoins: nat) {
    && (st.sender.Some? ==> forall c :: c in st.subscribed ==> (st.sender.value, c) in st.wire)
    && |st.coins| <= maxCoins
  }

  lemma FramesHas(conn: nat, coins: seq<string>, c: string)
    requires c in coins
    ensures (conn, c) in Frames(conn, coins)
  {
    var i :| 0 <= i < |coins| && coins[i] == c;
    assert Frames(conn, coins)[i] == (conn, c);
  }

  lemma SendsKeepInStep(st: State, coins: seq<string>, maxCoins: nat, failAt: Option<nat>)
    requires InStep(st, maxCoins)
    ensures InStep(AfterSends(st, coins, failAt), maxCoins)
  {
    var st' := AfterSends(st, coins, failAt);
    var sent := coins[..SentCount(st, coins, failAt)];
    if st.sender.Some? {
      forall c | c in st'.subscribed ensures (st.sender.value, c) in st'.wire {
        if c in sent {
          FramesHas(st.sender.value, sent, c);
        }
      }
    }
  }

  /** In every run, under any interleaving of calls, connects, disconnects and failed writes. */
  lemma {:induction false} AlwaysInStep(evs: seq<Event>, maxCoins: nat)
    ensures InStep(Run(Initial, evs, maxCoins), maxCoins)
  {
    if evs != [] {
      var st, ev := Run(Initial, evs[..|evs| - 1], maxCoins), evs[|evs| - 1];
      AlwaysInStep(evs[..|evs| - 1], maxCoins);
      match ev
      case Refresh(coins, failAt) =>
        if |coins| <= maxCoins {
          SendsKeepInStep(st.(coins := coins), Missing(coins, st.subscribed), maxCoins, failAt);
        }
      case SubscribeAll(failAt) => SendsKeepInStep(st, st.coins, maxCoins, failAt);
      case _ =>
    }
  }

  lemma {:induction false} MissingMembers(coins: seq<string>, subscribed: set<string>, c: string)
    ensures c in Missing(coins, subscribed) <==> c in coins && c !in subscribed
  {
    if coins != [] {
      assert coins == coins[..|coins| - 1] + [coins[|coins| - 1]];
      MissingMembers(coins[..|coins| - 1], subscribed, c);
    }
  }

  /** The whole universe is on the wire of the open connection. */
  ghost predicate FullySubscribed(st: State) {
    st.sender.Some? && forall c :: c in st.coins ==> c in st.subscribed && (st.sender.value, c) in st.wire
  }

  /** After any history, reconnecting and an error-free subscribeAll restores every subscription, and an
      error-free refresh while connected covers the new universe. */
  lemma UniverseIsCovered(evs: seq<Event>, conn: nat, coins: seq<string>, maxCoins: nat)
    ensures FullySubscribed(Run(Initial, evs + [Connect(conn)] + [SubscribeAll(None)], maxCoins))
    ensures Run(Initial, evs, maxCoins).sender.Some? && |coins| <= maxCoins ==>
      FullySubscribed(Run(Initial, evs + [Refresh(coins, None)], maxCoins))
  {
    var st := Run(Initial, evs, maxCoins);
    var connected := evs + [Connect(conn)];
    var all := connected + [SubscribeAll(None)];
    assert connected[..|evs|] == evs && all[..|connected|] == connected;
    AlwaysInStep(all, maxCoins);
    var coinsNow := Run(Initial, connected, maxCoins).coins;
    assert coinsNow[..|coinsNow|] == coinsNow;
    if st.sender.Some? && |coins| <= maxCoins {
      var refreshed := evs + [Refresh(coins, None)];
      assert refreshed[..|evs|] == evs;
      AlwaysInStep(refreshed, maxCoins);
      var missing := Missing(coins, st.subscribed);
      assert missing[..|missing|] == missing;
      forall c | c in coins ensures c in Run(Initial, refreshed, maxCoins).subscribed {
        MissingMembers(coins, st.subscribed, c);
      }
    }
  }

  /** After any history, an accepted universe is what the next connection subscribes, coin by coin in its order and
      nothing else; a refused one changes nothing. */
  lemma SetIsSubscribed(evs: seq<Event>, coins: seq<string>, conn: nat, maxCoins: nat)
    ensures var st := Run(Initial, evs, maxCoins);
      var kept := Run(Initial, evs + [Set(coins)], maxCoins);
      var all := Run(Initial, evs + [Set(coins)] + [Connect(conn)] + [SubscribeAll(None)], maxCoins);
      if |coins| > maxCoins then kept == st
      else
        && all.sender == Some(conn) && all.coins == coins
        && all.subscribed == set c | c in coins
        && |all.wire| == |st.wire| + |coins| && st.wire <= all.wire
        && forall k :: 0 <= k < |coins| ==> all.wire[|st.wire| + k] == (conn, coins[k])
  {
    var a := evs + [Set(coins)];
    var b := a + [Connect(conn)];
    var c := b + [SubscribeAll(None)];
    assert a[..|evs|] == evs && b[..|a|] == a && c[..|b|] == b;
    assert coins[..|coins|] == coins;
    var connected := Run(Initial, b, maxCoins);
    assert connected == Run(Initial, a, maxCoins).(sender := Some(conn), subscribed := {});
    assert Run(Initial, c, maxCoins) == AfterSends(connected, connected.coins, None);
  }

  /** A refresh while connected sends the coins not yet marked, in the order given, up to the write that fails. */
  lemma RefreshSends(st: State, coins: seq<string>, maxCoins: nat, failAt: Option<nat>) returns (at: seq<nat>)
    requires |coins| <= maxCoins && st.sender.Some?
    ensures Picks(Missing(coins, st.subscribed), coins, at)
    ensures forall j :: 0 <= j < |coins| ==> (j in at <==> coins[j] !in st.subscribed)
    ensures var st' := AfterRefresh(st, coins, maxCoins, failAt);
      var n := if failAt.Some? && failAt.value < |at| then failAt.value else |at|;
      && st'.coins == coins && st'.sender == st.sender
      && |st'.wire| == |st.wire| + n && st.wire <= st'.wire
      && (forall k :: 0 <= k < n ==> st'.wire[|st.wire| + k] == (st.sender.value, coins[at[k]]))
      && (forall c :: c in st'.subscribed <==> c in st.subscribed || exists k :: 0 <= k < n && coins[at[k]] == c)
  {
    at := MissingAt(coins, st.subscribed);
    var st' := AfterRefresh(st, coins, maxCoins, failAt);
    var missing := Missing(coins, st.subscribed);
    var n := SentCount(st, missing, failAt);
    forall c ensures c in SetOf(missing[..n]) <==> exists k :: 0 <= k < n && coins[at[k]] == c {
      if c in missing[..n] {
        var k :| 0 <= k < n && missing[..n][k] == c;
        assert coins[at[k]] == c;
      }
    }
  }

  lemma {:induction false} MissingAt(coins: seq<string>, subscribed: set<string>) returns (at: seq<nat>)
    ensures Picks(Missing(coins, subscribed), coins, at)
    ensures forall j :: 0 <= j < |coins| ==> (j in at <==> coins[j] !in subscribed)
  {
    at := [];
    if coins != [] {
      var init, c := coins[..|coins| - 1], coins[|coins| - 1];
      at := MissingAt(init, subscribed);
      assert coins == init + [c];
      if c !in subscribed {
        PicksNext(Missing(init, subscribed), init, c, at);
        at := at + [|init|];
      } else {
        PicksMore(Missing(init, subscribed), init, c, at);
      }
    }
  }

  // ---- the cap ----

  lemma {:induction false} MissingIsNew(coins: seq<string>, subscribed: set<string>, n: nat)
    requires n <= |Missing(coins, subscribed)|
    ensures SetOf(Missing(coins, subscribed)[..n]) !! subscribed
    ensures SetOf(Missing(coins, subscribed)[..n]) <= SetOf(coins)
  {
    forall c | c in Missing(coins, subscribed)[..n] ensures c !in subscribed && c in coins {
      MissingMembers(coins, subscribed, c);
    }
  }

  /** The coins a refresh gets through: the missing ones, up to a failed write. */
  ghost function Added(st: State, coins: seq<string>, failAt: Option<nat>): set<string> {
    var missing := Missing(coins, st.subscribed);
    SetOf(missing[..SentCount(st, missing, failAt)])
  }

  lemma RefreshAdds(st: State, coins: seq<string>, maxCoins: nat, failAt: Option<nat>)
    requires |coins| <= maxCoins
    ensures AfterRefresh(st, coins, maxCoins, failAt).subscribed == st.subscribed + Added(st, coins, failAt)
    ensures Added(st, coins, failAt) !! st.subscribed && Added(st, coins, failAt) <= SetOf(coins)
  {
    var missing := Missing(coins, st.subscribed);
    MissingIsNew(coins, st.subscribed, SentCount(st, missing, failAt));
  }

  lemma WithoutFailureAllAreAdded(st: State, coins: seq<string>)
    ensures Added(st, coins, None) == SetOf(coins) - st.subscribed
  {
    var missing := Missing(coins, st.subscribed);
    assert missing[..|missing|] == missing;
    forall c ensures c in SetOf(missing) <==> c in SetOf(coins) - st.subscribed {
      MissingMembers(coins, st.subscribed, c);
    }
  }

  lemma DisjointSize(a: set<string>, b: set<string>)
    requires a !! b
    ensures |a + b| == |a| + |b|
  {
  }

  /** The cap bounds the universe, not the subscriptions: nothing is ever unsubscribed. An accepted refresh stays within
      the cap exactly when the coins it gets through fit the room that was left; without a failed write they are all
      the coins not subscribed before. */
  lemma RefreshWithinCapIff(st: State, coins: seq<string>, maxCoins: nat, failAt: Option<nat>)
    requires |coins| <= maxCoins
    ensures |AfterRefresh(st, coins, maxCoins, failAt).subscribed| <= maxCoins
      <==> |Added(st, coins, failAt)| <= maxCoins - |st.subscribed|
    ensures failAt.None? ==> Added(st, coins, failAt) == SetOf(coins) - st.subscribed
  {
    RefreshAdds(st, coins, maxCoins, failAt);
    DisjointSize(st.subscribed, Added(st, coins, failAt));
    if failAt.None? {
      WithoutFailureAllAreAdded(st, coins);
    }
  }

  ghost predicate StaysConnected(since: seq<Event>) {
    forall k :: 0 <= k < |since| ==> !since[k].Connect? && !since[k].Disconnect?
  }

  ghost function CoinsOf(frames: seq<(nat, string)>): set<string> {
    set frame | frame in frames :: frame.1
  }

  lemma FramesCarry(conn: nat, coins: seq<string>)
    ensures CoinsOf(Frames(conn, coins)) == SetOf(coins)
  {
    forall c | c in coins ensures c in CoinsOf(Frames(conn, coins)) {
      FramesHas(conn, coins, c);
      assert (conn, c).1 == c;
    }
  }

  lemma CoinsOfConcat(a: seq<(nat, string)>, b: seq<(nat, string)>)
    ensures CoinsOf(a + b) == CoinsOf(a) + CoinsOf(b)
  {
  }

  /** What is marked subscribed is what was written since the wire had the given length. */
  ghost predicate MarksWritten(st: State, from: nat) {
    st.sender.Some? && from <= |st.wire| && st.subscribed == CoinsOf(st.wire[from..])
  }

  lemma SendsKeepMarks(st: State, coins: seq<string>, failAt: Option<nat>, from: nat)
    requires MarksWritten(st, from)
    ensures MarksWritten(AfterSends(st, coins, failAt), from)
  {
    var sent := coins[..SentCount(st, coins, failAt)];
    var frames := Frames(st.sender.value, sent);
    FramesCarry(st.sender.value, sent);
    CoinsOfConcat(st.wire[from..], frames);
    assert (st.wire + frames)[from..] == st.wire[from..] + frames;
  }

  lemma StepKeepsMarks(st: State, ev: Event, maxCoins: nat, from: nat)
    requires MarksWritten(st, from) && !ev.Connect? && !ev.Disconnect?
    ensures MarksWritten(Step(st, ev, maxCoins), from)
  {
    match ev
    case Refresh(coins, failAt) =>
      if |coins| <= maxCoins {
        SendsKeepMarks(st.(coins := coins), Missing(coins, st.subscribed), failAt, from);
      }
    case SubscribeAll(failAt) => SendsKeepMarks(st, st.coins, failAt, from);
    case _ =>
  }

  lemma {:induction false} RunKeepsMarks(st: State, since: seq<Event>, maxCoins: nat, from: nat)
    requires MarksWritten(st, from) && StaysConnected(since)
    ensures MarksWritten(Run(st, since, maxCoins), from)
  {
    if since != [] {
      RunKeepsMarks(st, since[..|since| - 1], maxCoins, from);
      StepKeepsMarks(Run(st, since[..|since| - 1], maxCoins), since[|since| - 1], maxCoins, from);
    }
  }

  lemma {:induction false} RunConcat(st: State, a: seq<Event>, b: seq<Event>, maxCoins: nat)
    ensures Run(st, a + b, maxCoins) == Run(Run(st, a, maxCoins), b, maxCoins)
  {
    if b == [] {
      assert a + b == a;
    } else {
      var init, last := b[..|b| - 1], b[|b| - 1];
      RunConcat(st, a, init, maxCoins);
      assert (a + b)[..|a + b| - 1] == a + init && (a + b)[|a + b| - 1] == last;
    }
  }

  /** After any history, for as long as a connection lasts and whichever writes fail: the coins marked subscribed are
      exactly those written since the connect. */
  lemma SubscribedIsWritten(evs: seq<Event>, conn: nat, since: seq<Event>, maxCoins: nat)
    requires StaysConnected(since)
    ensures var connected := Run(Initial, evs + [Connect(conn)], maxCoins);
      var st := Run(Initial, evs + [Connect(conn)] + since, maxCoins);
      && connected.wire <= st.wire
      && st.subscribed == CoinsOf(st.wire[|connected.wire|..])
  {
    var before := evs + [Connect(conn)];
    var connected := Run(Initial, before, maxCoins);
    assert before[..|before| - 1] == evs;
    assert connected.wire[|connected.wire|..] == [];
    RunKeepsMarks(connected, since, maxCoins, |connected.wire|);
    RunConcat(Initial, before, since, maxCoins);
    WireGrows(connected, since, maxCoins);
  }

  lemma {:induction false} WireGrows(st: State, since: seq<Event>, maxCoins: nat)
    ensures st.wire <= Run(st, since, maxCoins).wire
  {
    if since != [] {
      WireGrows(st, since[..|since| - 1], maxCoins);
    }
  }

  /** The coins that an event asks to have subscribed: those of an accepted refresh, or the whole universe. */
  ghost function AskedBy(st: State, ev: Event, maxCoins: nat): set<string> {
    match ev
    case Refresh(coins, _) => if |coins| <= maxCoins then SetOf(coins) else {}
    case SubscribeAll(_) => SetOf(st.coins)
    case _ => {}
  }

  ghost function Asked(st: State, since: seq<Event>, maxCoins: nat): set<string> {
    if since == [] then {}
    else
      Asked(st, since[..|since| - 1], maxCoins)
      + AskedBy(Run(st, since[..|since| - 1], maxCoins), since[|since| - 1], maxCoins)
  }

  ghost predicate WritesSucceed(ev: Event) {
    (ev.Refresh? ==> ev.failAt.None?) && (ev.SubscribeAll? ==> ev.failAt.None?)
  }

  lemma StepSubscribes(st: State, ev: Event, maxCoins: nat)
    requires !ev.Connect?
    ensures st.subscribed <= Step(st, ev, maxCoins).subscribed <= st.subscribed + AskedBy(st, ev, maxCoins)
    ensures WritesSucceed(ev) ==> Step(st, ev, maxCoins).subscribed == st.subscribed + AskedBy(st, ev, maxCoins)
  {
    match ev
    case Refresh(coins, failAt) =>
      if |coins| <= maxCoins {
        RefreshAdds(st, coins, maxCoins, failAt);
        if failAt.None? {
          WithoutFailureAllAreAdded(st, coins);
        }
      }
    case SubscribeAll(failAt) =>
      assert st.coins[..|st.coins|] == st.coins;
    case _ =>
  }

  lemma {:induction false} RunSubscribes(st: State, since: seq<Event>, maxCoins: nat)
    requires StaysConnected(since)
    ensures Run(st, since, maxCoins).subscribed <= st.subscribed + Asked(st, since, maxCoins)
    ensures (forall k :: 0 <= k < |since| ==> WritesSucceed(since[k])) ==>
      Run(st, since, maxCoins).subscribed == st.subscribed + Asked(st, since, maxCoins)
  {
    if since != [] {
      RunSubscribes(st, since[..|since| - 1], maxCoins);
      StepSubscribes(Run(st, since[..|since| - 1], maxCoins), since[|since| - 1], maxCoins);
    }
  }

  /** After any history, for as long as a connection lasts: it carries no coin that was not asked for since it opened,
      and without a failed write it carries them all, so it is within the cap exactly when all universes asked for
      since then fit together. */
  lemma ConnectionWithinCapIff(evs: seq<Event>, conn: nat, since: seq<Event>, maxCoins: nat)
    requires StaysConnected(since)
    ensures var connected := Run(Initial, evs + [Connect(conn)], maxCoins);
      var st := Run(Initial, evs + [Connect(conn)] + since, maxCoins);
      && st.subscribed <= Asked(connected, since, maxCoins)
      && ((forall k :: 0 <= k < |since| ==> WritesSucceed(since[k])) ==>
            st.subscribed == Asked(connected, since, maxCoins)
            && (|st.subscribed| <= maxCoins <==> |Asked(connected, since, maxCoins)| <= maxCoins))
  {
    var before := evs + [Connect(conn)];
    assert before[..|before| - 1] == evs;
    RunConcat(Initial, before, since, maxCoins);
    RunSubscribes(Run(Initial, before, maxCoins), since, maxCoins);
  }

  /** An accepted refresh without a failed write leaves all its coins subscribed beside the old ones. */
  lemma CleanRefreshSubscribes(st: State, coins: seq<string>, maxCoins: nat)
    requires |coins| <= maxCoins
    ensures AfterRefresh(st, coins, maxCoins, None).subscribed == st.subscribed + SetOf(coins)
  {
    RefreshAdds(st, coins, maxCoins, None);
    WithoutFailureAllAreAdded(st, coins);
  }

  /** Two accepted refreshes within a cap of one leave a fresh connection with two subscriptions. */
  lemma CapCanBeExceeded(st: State, a: string, b: string)
    requires st.subscribed == {} && a != b
    ensures |AfterRefresh(AfterRefresh(st, [a], 1, None), [b], 1, None).subscribed| == 2
  {
    var first := AfterRefresh(st, [a], 1, None);
    CleanRefreshSubscribes(st, [a], 1);
    CleanRefreshSubscribes(first, [b], 1);
    DisjointSize(SetOf([a]), SetOf([b]));
    SetOfOne(a);
    SetOfOne(b);
  }

  lemma SetOfOne(c: string)
    ensures SetOf([c]) == {c}
  {
  }
}
