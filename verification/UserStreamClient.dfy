/** The stream object: one method per critical section, each refining its function in module UserStream. */
module UserStreamClient {
  import opened Basics
  import opened Text
  import opened UserStream

  function Normalize(addr: string): string {
    ToLower(TrimSpace(addr))
  }

  /** Two texts name the same address exactly when, once trimmed, they are equal but for the case of ASCII letters. */
  lemma SameAddressIff(a: string, b: string)
    ensures Normalize(a) == Normalize(b) <==> SameButCase(TrimSpace(a), TrimSpace(b))
  {
    LowerAlike(TrimSpace(a), TrimSpace(b));
  }

  /** Such texts share one slot: subscribing the second changes nothing, and unsubscribing it frees the first. */
  lemma OneSlot(sh: Shared, a: string, b: string, dialOk: bool)
    requires InRange(sh) && SameButCase(TrimSpace(a), TrimSpace(b))
    requires InRange(Subscribed(sh, Normalize(a), true))
    ensures var sh' := Subscribed(sh, Normalize(a), true);
      && Normalize(a) in sh'.active && Subscribed(sh', Normalize(b), dialOk) == sh'
      && Normalize(a) !in Unsubscribed(sh', Normalize(b)).active
  {
    SameAddressIff(a, b);
  }

  lemma {:induction false} FirstWithRoomAt(sh: Shared, from: nat, i: nat)
    requires InRange(sh) && from <= i <= |sh.conns|
    requires forall k :: from <= k < i ==> |sh.subs[sh.conns[k]]| >= MAX_SUBS_PER_CONN
    requires i < |sh.conns| ==> |sh.subs[sh.conns[i]]| < MAX_SUBS_PER_CONN
    ensures FirstWithRoom(sh, from) == if i < |sh.conns| then Some(sh.conns[i]) else None
    decreases i - from
  {
    if from < i {
      FirstWithRoomAt(sh, from + 1, i);
    }
  }

  lemma {:induction false} FirstHoldingAt(sh: Shared, addr: string, from: nat, i: nat)
    requires InRange(sh) && from <= i <= |sh.conns|
    requires forall k :: from <= k < i ==> addr !in sh.subs[sh.conns[k]]
    requires i < |sh.conns| ==> addr in sh.subs[sh.conns[i]]
    ensures FirstHolding(sh, addr, from) == if i < |sh.conns| then Some(sh.conns[i]) else None
    decreases i - from
  {
    if from < i {
      FirstHoldingAt(sh, addr, from + 1, i);
    }
  }

  lemma {:induction false} WithoutAppend(list: seq<nat>, c: nat, target: nat)
    ensures Without(list + [c], target) == Without(list, target) + (if c == target then [] else [c])
  {
    if list == [] {
      assert [c][1..] == [];
    } else {
      assert (list + [c])[1..] == list[1..] + [c];
      WithoutAppend(list[1..], c, target);
    }
  }

  lemma LeaveConn(sh: Shared, addr: string, c: nat)
    requires InRange(sh) && addr in sh.active && FirstHolding(sh, addr, 0) == Some(c)
    ensures c in sh.conns && addr in sh.subs[c]
    ensures |sh.subs[c] - {addr}| == 0 <==> sh.subs[c] == {addr}
    ensures Emptied(sh, addr) == if sh.subs[c] == {addr} then Some(c) else None
    ensures Unsubscribed(sh, addr) == Shared(sh.active - {addr},
      if sh.subs[c] == {addr} then Without(sh.conns, c) else sh.conns, sh.subs[c := sh.subs[c] - {addr}])
  {
  }

  class Conn {
    ghost const id: nat
    var subs: set<string>

    constructor (ghost id: nat, subs: set<string>)
      ensures this.id == id && this.subs == subs
    {
      this.id, this.subs := id, subs;
    }
  }

  ghost function Ids(list: seq<Conn>): seq<nat> {
    seq(|list|, i requires 0 <= i < |list| => list[i].id)
  }

  ghost function SubsOf(list: seq<Conn>): (r: seq<set<string>>)
    reads list
    ensures |r| == |list| && forall i :: 0 <= i < |list| ==> r[i] == list[i].subs
  {
    seq(|list|, i requires 0 <= i < |list| reads list => list[i].subs)
  }

  method RemoveUserConn(list: seq<Conn>, target: Conn) returns (res: seq<Conn>)
    requires forall i :: 0 <= i < |list| && list[i].id == target.id ==> list[i] == target
    ensures Ids(res) == Without(Ids(list), target.id)
    ensures forall i :: 0 <= i < |res| ==> res[i] in list
  {
    res := [];
    for i := 0 to |list|
      invariant forall k :: 0 <= k < |res| ==> res[k] in list
      invariant Ids(res) == Without(Ids(list[..i]), target.id)
    {
      assert Ids(list[..i + 1]) == Ids(list[..i]) + [list[i].id];
      WithoutAppend(Ids(list[..i]), list[i].id, target.id);
      if list[i] != target {
        assert Ids(res + [list[i]]) == Ids(res) + [list[i].id];
        res := res + [list[i]];
      }
    }
    assert list[..|list|] == list;
  }

  class Stream {
    var active: set<string>
    var conns: seq<Conn>
    /** Every connection ever dialed, in order. */
    ghost var dialed: seq<Conn>

    ghost predicate Valid()
      reads this
    {
      && (forall i :: 0 <= i < |dialed| ==> dialed[i].id == i)
      && (forall i :: 0 <= i < |conns| ==> conns[i].id < |dialed| && dialed[conns[i].id] == conns[i])
    }

    ghost function Shared(): (sh: UserStream.Shared)
      requires Valid()
      reads this, dialed
      ensures InRange(sh)
    {
      UserStream.Shared(active, Ids(conns), SubsOf(dialed))
    }

    constructor ()
      ensures Valid() && Shared() == Initial.sh
    {
      active, conns, dialed := {}, [], [];
    }

    /** Lists a freshly dialed connection carrying the given addresses. */
    method Append(carried: set<string>) returns (conn: Conn)
      requires Valid()
      modifies this`conns, this`dialed
      ensures Valid() && fresh(conn) && conn.subs == carried && conn.id == |old(dialed)|
      ensures conns == old(conns) + [conn] && dialed == old(dialed) + [conn]
      ensures Shared() == Reattached(old(Shared()), carried)
    {
      conn := new Conn(|dialed|, carried);
      conns, dialed := conns + [conn], dialed + [conn];
    }

    method FindRoom() returns (conn: Conn?)
      requires Valid()
      ensures conn != null ==> conn in conns && FirstWithRoom(Shared(), 0) == Some(conn.id)
      ensures conn == null ==> FirstWithRoom(Shared(), 0) == None
    {
      var i := 0;
      while i < |conns| && |conns[i].subs| >= MAX_SUBS_PER_CONN
        invariant 0 <= i <= |conns|
        invariant forall k :: 0 <= k < i ==> |Shared().subs[Shared().conns[k]]| >= MAX_SUBS_PER_CONN
      {
        assert Shared().subs[Shared().conns[i]] == conns[i].subs;
        i := i + 1;
      }
      assert i < |conns| ==> Shared().subs[Shared().conns[i]] == conns[i].subs;
      FirstWithRoomAt(Shared(), 0, i);
      conn := if i < |conns| then conns[i] else null;
    }

    method FindHolder(addr: string) returns (conn: Conn?)
      requires Valid()
      ensures conn != null ==> conn in conns && FirstHolding(Shared(), addr, 0) == Some(conn.id)
      ensures conn == null ==> FirstHolding(Shared(), addr, 0) == None
    {
      var i := 0;
      while i < |conns| && addr !in conns[i].subs
        invariant 0 <= i <= |conns|
        invariant forall k :: 0 <= k < i ==> addr !in Shared().subs[Shared().conns[k]]
      {
        assert Shared().subs[Shared().conns[i]] == conns[i].subs;
        i := i + 1;
      }
      assert i < |conns| ==> Shared().subs[Shared().conns[i]] == conns[i].subs;
      FirstHoldingAt(Shared(), addr, 0, i);
      conn := if i < |conns| then conns[i] else null;
    }

    method SetSubs(conn: Conn, subs: set<string>)
      requires Valid() && conn in conns
      modifies conn`subs
      ensures Valid()
      ensures Shared() == old(Shared()).(subs := old(Shared()).subs[conn.id := subs])
    {
      conn.subs := subs;
    }

    /** handleDrop's first section: the addresses on the connection whose read failed. */
    method DropSnapshot(dead: Conn) returns (addrs: set<string>)
      requires Valid() && dead.id < |dialed| && dialed[dead.id] == dead
      ensures addrs == Shared().subs[dead.id]
    {
      addrs := dead.subs;
    }

    /** The first half of Subscribe's section: the connection to join, listed but still empty when it is new. */
    method FindTarget(dialOk: bool) returns (conn: Conn?, isNew: bool)
      requires Valid()
      modifies this`conns, this`dialed
      ensures Valid() && old(dialed) <= dialed && active == old(active)
      ensures isNew == (FirstWithRoom(old(Shared()), 0).None? && dialOk)
      ensures conn == null <==> FirstWithRoom(old(Shared()), 0).None? && !dialOk
      ensures Shared() == if isNew then Reattached(old(Shared()), {}) else old(Shared())
      ensures !isNew ==> dialed == old(dialed) && conns == old(conns)
      ensures conn != null && !isNew ==> conn in conns && FirstWithRoom(Shared(), 0) == Some(conn.id)
      ensures isNew ==>
        conn != null && fresh(conn) && conn.subs == {} && conn.id == |old(dialed)|
        && conns == old(conns) + [conn] && dialed == old(dialed) + [conn]
    {
      isNew := false;
      conn := FindRoom();
      if conn == null && dialOk {
        conn := Append({});
        isNew := true;
      }
    }

    /** The second half: the address goes on the connection and becomes active. */
    method Attach(conn: Conn, addr: string)
      requires Valid() && conn in conns
      modifies this`active, conn`subs
      ensures Valid()
      ensures conn.id < |old(Shared()).subs| && Shared() == Attached(old(Shared()), conn.id, addr)
    {
      ghost var sh := Shared();
      assert sh.subs[conn.id] == conn.subs;
      SetSubs(conn, conn.subs + {addr});
      assert Shared() == sh.(subs := sh.subs[conn.id := sh.subs[conn.id] + {addr}]);
      active := active + {addr};
    }

    /** ok is false when a new connection was needed and its dial failed. The reader of a new connection may fail, and
        take its snapshot, before the address is there: what it will then try to resubscribe is nothing. */
    method Subscribe(address: string, dialOk: bool, readFails: bool) returns (ok: bool, snapshot: Option<set<string>>)
      requires Valid()
      modifies this, conns
      ensures Valid() && old(dialed) <= dialed
      ensures Shared() == Subscribed(old(Shared()), Normalize(address), dialOk)
      ensures ok <==> Normalize(address) in active
      ensures snapshot == if readFails && |dialed| > |old(dialed)| then Some({}) else None
    {
      var addr := Normalize(address);
      if addr in active {
        return true, None;
      }
      ghost var sh := Shared();
      var conn, isNew := FindTarget(dialOk);
      if conn == null {
        return false, None;
      }
      snapshot := None;
      if isNew && readFails {
        var addrs := DropSnapshot(conn);
        snapshot := Some(addrs);
      }
      Attach(conn, addr);
      if isNew {
        DialThenAttach(sh, addr);
      }
      ok := true;
    }

    /** Unlists a connection: handleDrop's second section, and part of Unsubscribe. */
    method DropConn(dead: Conn)
      requires Valid() && dead.id < |dialed| && dialed[dead.id] == dead
      modifies this`conns
      ensures Valid()
      ensures Shared() == Removed(old(Shared()), dead.id)
    {
      conns := RemoveUserConn(conns, dead);
    }

    /** Everything Unsubscribe does under the stream's lock; returns the connection it emptied, to be closed. */
    method Leave(addr: string) returns (closing: Conn?)
      requires Valid()
      modifies this, conns
      ensures Valid() && dialed == old(dialed)
      ensures Shared() == Unsubscribed(old(Shared()), addr)
      ensures Emptied(old(Shared()), addr) == if closing == null then None else Some(closing.id)
    {
      closing := null;
      if addr !in active {
        return;
      }
      var conn := FindHolder(addr);
      ghost var sh := Shared();
      active := active - {addr};
      assert Shared() == sh.(active := sh.active - {addr});
      if conn == null {
        return;
      }
      LeaveConn(sh, addr, conn.id);
      SetSubs(conn, conn.subs - {addr});
      if |conn.subs| == 0 {
        DropConn(conn);
        closing := conn;
      }
    }

    method Unsubscribe(address: string) returns (closing: Conn?)
      requires Valid()
      modifies this, conns
      ensures Valid() && dialed == old(dialed)
      ensures Shared() == Unsubscribed(old(Shared()), Normalize(address))
      ensures Emptied(old(Shared()), Normalize(address)) == if closing == null then None else Some(closing.id)
    {
      closing := Leave(Normalize(address));
    }

    /** reconnect, up to its dial: what the machine's check finds for a goroutine that remembers these addresses. */
    method Recheck(ghost st: State, ghost c: nat, addrs: seq<string>) returns (toSub: seq<string>)
      requires Valid() && WellFormed(st) && st.sh == Shared() && c < |st.phase|
      requires st.phase[c] == Waiting(set a | a in addrs)
      ensures Step(st, UserStream.Recheck(c)).sh == Shared()
      ensures Step(st, UserStream.Recheck(c)).phase[c]
        == if toSub == [] then Finished else Dialing(set a | a in addrs, set a | a in toSub)
    {
      toSub := StillActive(addrs);
      ghost var found := set a | a in toSub;
      assert found == (set a | a in addrs) * st.sh.active;
      assert found == {} <==> toSub == [] by {
        assert toSub != [] ==> toSub[0] in found;
      }
    }

    /** reconnect, once its dial came through. */
    method Reattach(ghost st: State, ghost c: nat, toSub: seq<string>)
      requires Valid() && WellFormed(st) && st.sh == Shared() && c < |st.phase|
      requires st.phase[c].Dialing? && st.phase[c].toSub == set a | a in toSub
      modifies this`conns, this`dialed
      ensures Valid() && old(dialed) <= dialed
      ensures Shared() == Step(st, DialSucceeds(c)).sh
    {
      var carried: set<string> := {};
      for i := 0 to |toSub|
        invariant carried == set a | a in toSub[..i]
      {
        assert toSub[..i + 1] == toSub[..i] + [toSub[i]];
        carried := carried + {toSub[i]};
      }
      assert toSub[..|toSub|] == toSub;
      var conn := Append(carried);
    }

    /** reconnect's activity check: the addresses still active, in their order. */
    method StillActive(addrs: seq<string>) returns (toSub: seq<string>)
      requires Valid()
      ensures (set a | a in toSub) == (set a | a in addrs) * Shared().active
    {
      toSub := [];
      for i := 0 to |addrs|
        invariant forall a :: a in toSub <==> a in addrs[..i] && a in active
      {
        assert addrs[..i + 1] == addrs[..i] + [addrs[i]];
        if addrs[i] in active {
          toSub := toSub + [addrs[i]];
        }
      }
      assert addrs[..|addrs|] == addrs;
    }
  }
}
