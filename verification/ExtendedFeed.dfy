/** The Extended order-book feed: a per-symbol sequence filter in front of a bounded channel that drops when full. */
module ExtendedFeed {
  import opened Basics

  /** A level as sent: price, the change `q` and the absolute quantity `c`. */
  datatype RawLevel = RawLevel(p: string, q: string, c: string)
  datatype Level = Level(price: string, quantity: string)

  datatype Message = Message(kind: string, bids: seq<RawLevel>, asks: seq<RawLevel>, seqNo: int)
  datatype Event = Event(symbol: string, bids: seq<Level>, asks: seq<Level>, isSnapshot: bool,
                         sequence: int, fromSequence: int)

  const CHANNEL_CAPACITY: nat := 100

  function Levels(raw: seq<RawLevel>): seq<Level> {
    seq(|raw|, i requires 0 <= i < |raw| => Level(raw[i].p, raw[i].c))
  }

  /** The filter: only a positive number that does not pass a positive predecessor is stale. */
  predicate Stale(last: int, seqNo: int) {
    seqNo > 0 && last > 0 && seqNo <= last
  }

  function EventOf(symbol: string, last: int, msg: Message): Event {
    var isSnapshot := msg.kind == "SNAPSHOT";
    Event(symbol, Levels(msg.bids), Levels(msg.asks), isSnapshot, msg.seqNo, if isSnapshot then 0 else last)
  }

  /** The number remembered for a symbol and the events waiting in its channel. */
  datatype Feed = Feed(last: int, queue: seq<Event>)

  function Handled(feed: Feed, capacity: nat, symbol: string, msg: Message): Feed {
    if Stale(feed.last, msg.seqNo) then feed
    else
      Feed(msg.seqNo,
           if |feed.queue| < capacity then feed.queue + [EventOf(symbol, feed.last, msg)] else feed.queue)
  }

  // ---- the program ----

  class Channel {
    const capacity: nat
    var queue: seq<Event>

    constructor (capacity: nat)
      ensures this.capacity == capacity && queue == []
    {
      this.capacity, queue := capacity, [];
    }

    /** The non-blocking send. */
    method Offer(event: Event)
      modifies this
      ensures queue == if |old(queue)| < capacity then old(queue) + [event] else old(queue)
    {
      if |queue| < capacity {
        queue := queue + [event];
      }
    }

    method Take() returns (event: Option<Event>)
      modifies this
      ensures old(queue) == [] ==> event == None && queue == []
      ensures old(queue) != [] ==> event == Some(old(queue)[0]) && queue == old(queue)[1..]
    {
      if queue == [] {
        return None;
      }
      event, queue := Some(queue[0]), queue[1..];
    }
  }

  method CopyLevels(raw: seq<RawLevel>, isSnapshot: bool) returns (levels: seq<Level>)
    ensures levels == Levels(raw)
  {
    levels := [];
    for i := 0 to |raw|
      invariant levels == Levels(raw)[..i]
    {
      var quantity := raw[i].c;
      if !isSnapshot && raw[i].q != "" {
        quantity := raw[i].c;
      }
      levels := levels + [Level(raw[i].p, quantity)];
    }
  }

  class Adapter {
    var lastSeq: map<string, int>
    var eventChans: map<string, Channel>

    /** A symbol without an entry reads as zero. */
    function Last(symbol: string): int
      reads this
    {
      if symbol in lastSeq then lastSeq[symbol] else 0
    }

    constructor ()
      ensures lastSeq == map[] && eventChans == map[]
    {
      lastSeq, eventChans := map[], map[];
    }

    /** The first call makes the channel and resets the number; later calls share it. The channel stays registered
        when the connection fails, so a second call then succeeds without connecting. */
    method SubscribeOrderBook(symbol: string, connects: bool) returns (channel: Option<Channel>)
      modifies this
      ensures symbol in old(eventChans) ==>
        (lastSeq == old(lastSeq) && eventChans == old(eventChans) && channel == Some(old(eventChans)[symbol]))
      ensures symbol !in old(eventChans) ==>
        (&& symbol in eventChans && fresh(eventChans[symbol])
         && eventChans == old(eventChans)[symbol := eventChans[symbol]] && lastSeq == old(lastSeq)[symbol := 0]
         && eventChans[symbol].queue == [] && eventChans[symbol].capacity == 100
         && channel == if connects then Some(eventChans[symbol]) else None)
    {
      if symbol in eventChans {
        return Some(eventChans[symbol]);
      }
      var made := new Channel(CHANNEL_CAPACITY);
      eventChans := eventChans[symbol := made];
      lastSeq := lastSeq[symbol := 0];
      if !connects {
        return None;
      }
      return Some(made);
    }

    /** One frame, decoded or not. The number advances even when the channel is full and the event is lost. */
    method HandleMessage(symbol: string, decoded: Option<Message>, channel: Channel)
      modifies this`lastSeq, channel
      ensures decoded.None? ==> lastSeq == old(lastSeq) && channel.queue == old(channel.queue)
      ensures decoded.Some? ==>
        Feed(Last(symbol), channel.queue)
        == Handled(old(Feed(Last(symbol), channel.queue)), channel.capacity, symbol, decoded.value)
      ensures forall other :: other != symbol ==> Last(other) == old(Last(other))
    {
      if decoded.None? {
        return;
      }
      var msg := decoded.value;
      var prevSeq := Last(symbol);
      if msg.seqNo > 0 && prevSeq > 0 && msg.seqNo <= prevSeq {
        return;
      }
      var isSnapshot := msg.kind == "SNAPSHOT";
      var bids := CopyLevels(msg.bids, isSnapshot);
      var asks := CopyLevels(msg.asks, isSnapshot);
      var fromSeq := prevSeq;
      if isSnapshot {
        fromSeq := 0;
      }
      lastSeq := lastSeq[symbol := msg.seqNo];
      channel.Offer(Event(symbol, bids, asks, isSnapshot, msg.seqNo, fromSeq));
    }

    method Disconnect()
      modifies this
      ensures lastSeq == map[] && eventChans == map[]
    {
      lastSeq, eventChans := map[], map[];
    }
  }

  // ---- runs of one subscription ----

  datatype Input = Arrive(msg: Message) | Receive

  /** Every event the filter let through, and whether the channel had room for it. */
  datatype Entry = Entry(event: Event, delivered: bool)

  datatype History = History(feed: Feed, accepted: seq<Entry>, received: seq<Event>)

  ghost function Step(symbol: string, capacity: nat, h: History, input: Input): History {
    match input
    case Arrive(msg) =>
      History(Handled(h.feed, capacity, symbol, msg),
              if Stale(h.feed.last, msg.seqNo) then h.accepted
              else h.accepted + [Entry(EventOf(symbol, h.feed.last, msg), |h.feed.queue| < capacity)],
              h.received)
    case Receive =>
      if h.feed.queue == [] then h
      else History(h.feed.(queue := h.feed.queue[1..]), h.accepted, h.received + [h.feed.queue[0]])
  }

  ghost function Run(symbol: string, capacity: nat, inputs: seq<Input>): History {
    if inputs == [] then History(Feed(0, []), [], [])
    else Step(symbol, capacity, Run(symbol, capacity, inputs[..|inputs| - 1]), inputs[|inputs| - 1])
  }

  /** A new adapter with one subscription, driven through a run: its channel and its consumer end where the run does. */
  method Replay(symbol: string, inputs: seq<Input>) returns (received: seq<Event>, waiting: seq<Event>)
    ensures var h := Run(symbol, 100, inputs); received == h.received && waiting == h.feed.queue
  {
    var adapter := new Adapter();
    var subscribed := adapter.SubscribeOrderBook(symbol, true);
    var channel := subscribed.value;
    received := [];
    assert inputs[..0] == [];
    for i := 0 to |inputs|
      invariant fresh(adapter) && fresh(channel) && channel.capacity == 100
      invariant Feed(adapter.Last(symbol), channel.queue) == Run(symbol, 100, inputs[..i]).feed
      invariant received == Run(symbol, 100, inputs[..i]).received
    {
      assert inputs[..i + 1][..i] == inputs[..i];
      match inputs[i]
      case Arrive(msg) => adapter.HandleMessage(symbol, Some(msg), channel);
      case Receive =>
        var event := channel.Take();
        if event.Some? {
          received := received + [event.value];
        }
    }
    assert inputs[..|inputs|] == inputs;
    waiting := channel.queue;
  }

  ghost function Delivered(accepted: seq<Entry>): seq<Event> {
    if accepted == [] then []
    else
      var e := accepted[|accepted| - 1];
      Delivered(accepted[..|accepted| - 1]) + if e.delivered then [e.event] else []
  }

  /** The sequence number of the entry before the k-th, or zero. */
  ghost function Before(accepted: seq<Entry>, k: nat): int
    requires k <= |accepted|
  {
    if k == 0 then 0 else accepted[k - 1].event.sequence
  }

  /** Each entry names its predecessor, lost or not; a snapshot names zero. */
  ghost predicate Linked(accepted: seq<Entry>) {
    forall k :: 0 <= k < |accepted| ==>
      accepted[k].event.fromSequence == if accepted[k].event.isSnapshot then 0 else Before(accepted, k)
  }

  /** Strictly increasing, and starting above zero. */
  ghost predicate Rising(accepted: seq<Entry>) {
    forall k :: 0 <= k < |accepted| ==> Before(accepted, k) < accepted[k].event.sequence
  }

  ghost predicate AllNumbered(inputs: seq<Input>) {
    forall k :: 0 <= k < |inputs| && inputs[k].Arrive? ==> inputs[k].msg.seqNo > 0
  }

  /** What the consumer took, then what still waits, is exactly the delivered part of the accepted events in order;
      the channel keeps its bound; each event names the accepted one before it. */
  ghost predicate Conserved(h: History, capacity: nat) {
    && h.received + h.feed.queue == Delivered(h.accepted)
    && |h.feed.queue| <= capacity
    && Linked(h.accepted)
    && h.feed.last == Before(h.accepted, |h.accepted|)
  }

  /** The levels as sent: price and absolute quantity, place by place. */
  ghost predicate SameLevels(levels: seq<Level>, raw: seq<RawLevel>) {
    && |levels| == |raw|
    && forall i :: 0 <= i < |raw| ==> levels[i].price == raw[i].p && levels[i].quantity == raw[i].c
  }

  /** After any run, a message is passed on unless it is numbered, follows a numbered one and does not exceed it; the
      event carries what the message said. */
  lemma AcceptedCarriesMessage(symbol: string, capacity: nat, inputs: seq<Input>, msg: Message)
    ensures var h, h' := Run(symbol, capacity, inputs), Run(symbol, capacity, inputs + [Arrive(msg)]);
      var last := Before(h.accepted, |h.accepted|);
      if msg.seqNo > 0 && last > 0 && msg.seqNo <= last then h' == h
      else
        && |h'.accepted| == |h.accepted| + 1 && h'.accepted[..|h.accepted|] == h.accepted
        && var event := h'.accepted[|h.accepted|].event;
        && event.symbol == symbol && event.sequence == msg.seqNo && (event.isSnapshot <==> msg.kind == "SNAPSHOT")
        && SameLevels(event.bids, msg.bids) && SameLevels(event.asks, msg.asks)
  {
    FeedConserves(symbol, capacity, inputs);
    assert (inputs + [Arrive(msg)])[..|inputs|] == inputs;
  }

  /** After any run, what the consumer takes next is the oldest event waiting; a message takes nothing. */
  lemma ReceivesInOrder(symbol: string, capacity: nat, inputs: seq<Input>)
    ensures var h, h' := Run(symbol, capacity, inputs), Run(symbol, capacity, inputs + [Receive]);
      && h'.accepted == h.accepted
      && h'.received == if h.feed.queue == [] then h.received else h.received + [h.feed.queue[0]]
  {
    assert (inputs + [Receive])[..|inputs|] == inputs;
  }

  lemma LinkedExtends(accepted: seq<Entry>, e: Entry)
    ensures Linked(accepted + [e]) <==>
      Linked(accepted)
      && e.event.fromSequence == if e.event.isSnapshot then 0 else Before(accepted, |accepted|)
  {
    var longer := accepted + [e];
    assert forall k :: 0 <= k < |accepted| ==> longer[k] == accepted[k];
    assert forall k :: 0 <= k <= |accepted| ==> Before(longer, k) == Before(accepted, k);
    assert longer[|accepted|] == e;
    if Linked(longer) {
      forall k | 0 <= k < |accepted|
        ensures accepted[k].event.fromSequence == if accepted[k].event.isSnapshot then 0 else Before(accepted, k)
      {
        assert longer[k] == accepted[k];
      }
    }
  }

  lemma DeliveredExtends(accepted: seq<Entry>, e: Entry)
    ensures Delivered(accepted + [e]) == Delivered(accepted) + if e.delivered then [e.event] else []
  {
    assert (accepted + [e])[..|accepted|] == accepted;
  }

  lemma StepConserves(symbol: string, capacity: nat, h: History, input: Input)
    requires Conserved(h, capacity)
    ensures Conserved(Step(symbol, capacity, h, input), capacity)
  {
    match input
    case Arrive(msg) =>
      var e := Entry(EventOf(symbol, h.feed.last, msg), |h.feed.queue| < capacity);
      LinkedExtends(h.accepted, e);
      DeliveredExtends(h.accepted, e);
      assert h.received + (h.feed.queue + [e.event]) == h.received + h.feed.queue + [e.event];
    case Receive =>
      if h.feed.queue != [] {
        assert h.feed.queue == [h.feed.queue[0]] + h.feed.queue[1..];
      }
  }

  /** In every run. */
  lemma {:induction false} FeedConserves(symbol: string, capacity: nat, inputs: seq<Input>)
    ensures Conserved(Run(symbol, capacity, inputs), capacity)
  {
    if inputs != [] {
      FeedConserves(symbol, capacity, inputs[..|inputs| - 1]);
      StepConserves(symbol, capacity, Run(symbol, capacity, inputs[..|inputs| - 1]), inputs[|inputs| - 1]);
    }
  }

  /** After any run, the next accepted event is lost exactly when the consumer is `capacity` events behind. */
  lemma LostIffConsumerBehind(symbol: string, capacity: nat, inputs: seq<Input>, msg: Message)
    requires !Stale(Run(symbol, capacity, inputs).feed.last, msg.seqNo)
    ensures var h, h' := Run(symbol, capacity, inputs), Run(symbol, capacity, inputs + [Arrive(msg)]);
      && |h'.accepted| == |h.accepted| + 1
      && (!h'.accepted[|h.accepted|].delivered <==> |Delivered(h.accepted)| - |h.received| == capacity)
  {
    FeedConserves(symbol, capacity, inputs);
    assert (inputs + [Arrive(msg)])[..|inputs|] == inputs;
  }

  lemma RisingExtends(accepted: seq<Entry>, e: Entry)
    ensures Rising(accepted + [e]) <==> Rising(accepted) && Before(accepted, |accepted|) < e.event.sequence
  {
    var longer := accepted + [e];
    assert forall k :: 0 <= k < |accepted| ==> longer[k] == accepted[k];
    assert forall k :: 0 <= k <= |accepted| ==> Before(longer, k) == Before(accepted, k);
    assert longer[|accepted|] == e;
    if Rising(longer) {
      forall k | 0 <= k < |accepted| ensures Before(accepted, k) < accepted[k].event.sequence {
        assert Before(longer, k) < longer[k].event.sequence;
      }
    }
  }

  ghost predicate Numbered(input: Input) {
    input.Arrive? ==> input.msg.seqNo > 0
  }

  lemma RisingStep(symbol: string, capacity: nat, h: History, input: Input)
    requires Conserved(h, capacity)
    ensures Rising(Step(symbol, capacity, h, input).accepted) <==> Rising(h.accepted) && Numbered(input)
  {
    if input.Arrive? {
      RisingExtends(h.accepted, Entry(EventOf(symbol, h.feed.last, input.msg), |h.feed.queue| < capacity));
      if Rising(h.accepted) {
        LastIsLargest(h.accepted, |h.accepted|);
      }
    }
  }

  lemma AllNumberedExtends(inputs: seq<Input>, input: Input)
    ensures AllNumbered(inputs + [input]) <==> AllNumbered(inputs) && Numbered(input)
  {
    var longer := inputs + [input];
    assert forall k :: 0 <= k < |inputs| ==> longer[k] == inputs[k];
    assert longer[|inputs|] == input;
  }

  /** The accepted numbers rise strictly from above zero exactly when every message that arrived was numbered:
      one number of zero or less is always let through, and switches the filter off for its successor. */
  lemma {:induction false} RisingIffNumbered(symbol: string, capacity: nat, inputs: seq<Input>)
    ensures Rising(Run(symbol, capacity, inputs).accepted) <==> AllNumbered(inputs)
  {
    if inputs != [] {
      var init, input := inputs[..|inputs| - 1], inputs[|inputs| - 1];
      RisingIffNumbered(symbol, capacity, init);
      FeedConserves(symbol, capacity, init);
      RisingStep(symbol, capacity, Run(symbol, capacity, init), input);
      AllNumberedExtends(init, input);
      assert inputs == init + [input];
    }
  }

  ghost predicate NumberedBelow(accepted: seq<Entry>, n: nat)
    requires n <= |accepted|
  {
    && Before(accepted, n) >= n
    && forall j :: 0 <= j < n ==> 0 < accepted[j].event.sequence <= Before(accepted, n)
  }

  lemma NextIsLargest(accepted: seq<Entry>, n: nat)
    requires n < |accepted| && NumberedBelow(accepted, n) && Before(accepted, n) < accepted[n].event.sequence
    ensures NumberedBelow(accepted, n + 1)
  {
    var last := Before(accepted, n + 1);
    assert last == accepted[n].event.sequence;
    assert forall j :: 0 <= j < n ==> 0 < accepted[j].event.sequence <= Before(accepted, n) < last;
  }

  lemma {:induction false} LastIsLargest(accepted: seq<Entry>, n: nat)
    requires n <= |accepted| && Rising(accepted)
    ensures NumberedBelow(accepted, n)
  {
    if n > 0 {
      LastIsLargest(accepted, n - 1);
      assert Before(accepted, n - 1) < accepted[n - 1].event.sequence;
      NextIsLargest(accepted, n - 1);
    }
  }

  /** Some accepted event with a number strictly between the two was lost at the full channel. */
  ghost predicate LostBetween(accepted: seq<Entry>, low: int, high: int) {
    exists k :: 0 <= k < |accepted| && !accepted[k].delivered && low < accepted[k].event.sequence < high
  }

  ghost predicate NumberedUpTo(events: seq<Event>, bound: int) {
    forall i :: 0 <= i < |events| ==> 0 < events[i].sequence <= bound
  }

  lemma NumberedUpToExtends(events: seq<Event>, event: Event, bound: int)
    requires NumberedUpTo(events, bound) && bound < event.sequence && 0 < event.sequence
    ensures NumberedUpTo(events + [event], event.sequence) && NumberedUpTo(events, event.sequence)
  {
  }

  lemma NextDeliveredBounded(init: seq<Entry>, e: Entry)
    requires Rising(init) && Before(init, |init|) < e.event.sequence
    requires NumberedUpTo(Delivered(init), Before(init, |init|))
    ensures NumberedUpTo(Delivered(init + [e]), e.event.sequence)
  {
    DeliveredExtends(init, e);
    LastIsLargest(init, |init|);
    NumberedUpToExtends(Delivered(init), e.event, Before(init, |init|));
  }

  lemma {:induction false} DeliveredBounded(accepted: seq<Entry>)
    requires Rising(accepted)
    ensures NumberedUpTo(Delivered(accepted), Before(accepted, |accepted|))
  {
    if accepted != [] {
      var init, e := accepted[..|accepted| - 1], accepted[|accepted| - 1];
      assert accepted == init + [e];
      RisingExtends(init, e);
      DeliveredBounded(init);
      NextDeliveredBounded(init, e);
    }
  }

  /** A pair of neighbours among the delivered: the later one, if a delta, names the earlier one exactly when
      nothing numbered between them was lost. */
  ghost predicate GapShows(accepted: seq<Entry>, first: Event, second: Event) {
    && first.sequence < second.sequence
    && (!second.isSnapshot ==>
          (second.fromSequence == first.sequence <==> !LostBetween(accepted, first.sequence, second.sequence)))
  }

  /** A later entry, numbered above both, is not between them. */
  lemma LostBetweenExtends(init: seq<Entry>, e: Entry, low: int, high: int)
    requires high <= e.event.sequence
    ensures LostBetween(init + [e], low, high) <==> LostBetween(init, low, high)
  {
    var longer := init + [e];
    assert forall k :: 0 <= k < |init| ==> longer[k] == init[k];
    if LostBetween(init, low, high) {
      var k :| 0 <= k < |init| && !init[k].delivered && low < init[k].event.sequence < high;
      assert longer[k] == init[k];
    }
  }

  lemma NothingAboveTheLast(accepted: seq<Entry>, high: int)
    requires Rising(accepted)
    ensures !LostBetween(accepted, Before(accepted, |accepted|), high)
  {
    LastIsLargest(accepted, |accepted|);
  }

  /** When the last entry was lost, everything delivered is numbered below it. */
  lemma SkippedIsAbove(init: seq<Entry>, e: Entry)
    requires Rising(init + [e]) && !e.delivered
    ensures NumberedUpTo(Delivered(init + [e]), e.event.sequence - 1)
  {
    RisingExtends(init, e);
    DeliveredExtends(init, e);
    DeliveredBounded(init);
    LastIsLargest(init, |init|);
  }

  lemma GapAfterDelivered(init: seq<Entry>, e: Entry)
    requires init != [] && Rising(init) && Before(init, |init|) < e.event.sequence
    requires e.event.fromSequence == if e.event.isSnapshot then 0 else Before(init, |init|)
    ensures GapShows(init + [e], init[|init| - 1].event, e.event)
  {
    NothingAboveTheLast(init, e.event.sequence);
    LostBetweenExtends(init, e, Before(init, |init|), e.event.sequence);
  }

  lemma GapAfterLoss(init: seq<Entry>, e: Entry, first: Event)
    requires init != [] && !init[|init| - 1].delivered
    requires first.sequence < Before(init, |init|) < e.event.sequence
    requires e.event.fromSequence == if e.event.isSnapshot then 0 else Before(init, |init|)
    ensures GapShows(init + [e], first, e.event)
  {
    LostBetweenExtends(init, e, first.sequence, e.event.sequence);
    assert init[|init| - 1].event.sequence == Before(init, |init|);
  }

  /** The delivered event after `first`, when `first` was the last one delivered before it. */
  lemma GapAtTheEnd(init: seq<Entry>, e: Entry, first: Event)
    requires Rising(init + [e]) && Linked(init + [e])
    requires Delivered(init) != [] && first == Delivered(init)[|Delivered(init)| - 1]
    ensures GapShows(init + [e], first, e.event)
  {
    var m := |init| - 1;
    RisingExtends(init, e);
    LinkedExtends(init, e);
    assert init == init[..m] + [init[m]];
    DeliveredExtends(init[..m], init[m]);
    if init[m].delivered {
      GapAfterDelivered(init, e);
    } else {
      SkippedIsAbove(init[..m], init[m]);
      GapAfterLoss(init, e, first);
    }
  }

  lemma GapShowsLater(init: seq<Entry>, e: Entry, first: Event, second: Event)
    requires GapShows(init, first, second) && second.sequence <= e.event.sequence
    ensures GapShows(init + [e], first, second)
  {
    LostBetweenExtends(init, e, first.sequence, second.sequence);
  }

  ghost predicate GapsShow(accepted: seq<Entry>, delivered: seq<Event>) {
    forall i :: 0 < i < |delivered| ==> GapShows(accepted, delivered[i - 1], delivered[i])
  }

  lemma GapsStillShow(init: seq<Entry>, e: Entry, delivered: seq<Event>)
    requires GapsShow(init, delivered) && NumberedUpTo(delivered, e.event.sequence)
    ensures GapsShow(init + [e], delivered)
  {
    forall i | 0 < i < |delivered| ensures GapShows(init + [e], delivered[i - 1], delivered[i]) {
      GapShowsLater(init, e, delivered[i - 1], delivered[i]);
    }
  }

  lemma GapsShowOneMore(accepted: seq<Entry>, delivered: seq<Event>, event: Event)
    requires GapsShow(accepted, delivered)
    requires delivered != [] ==> GapShows(accepted, delivered[|delivered| - 1], event)
    ensures GapsShow(accepted, delivered + [event])
  {
  }

  lemma NextGapShows(init: seq<Entry>, e: Entry)
    requires Rising(init + [e]) && Linked(init + [e]) && GapsShow(init, Delivered(init))
    ensures GapsShow(init + [e], Delivered(init + [e]))
  {
    var d := Delivered(init);
    DeliveredExtends(init, e);
    assert NumberedUpTo(d, e.event.sequence) by {
      RisingExtends(init, e);
      DeliveredBounded(init);
    }
    GapsStillShow(init, e, d);
    if e.delivered {
      if d != [] {
        GapAtTheEnd(init, e, d[|d| - 1]);
      }
      GapsShowOneMore(init + [e], d, e.event);
    } else {
      assert d + [] == d;
    }
  }

  lemma {:induction false} AllGapsShow(accepted: seq<Entry>)
    requires Rising(accepted) && Linked(accepted)
    ensures GapsShow(accepted, Delivered(accepted))
  {
    if accepted != [] {
      var init, e := accepted[..|accepted| - 1], accepted[|accepted| - 1];
      assert accepted == init + [e];
      RisingExtends(init, e);
      LinkedExtends(init, e);
      AllGapsShow(init);
      NextGapShows(init, e);
    }
  }

  /** Local loss is always detectable. In every run whose messages are numbered, what the consumer has received is
      strictly increasing, and of any two neighbours the later delta names the earlier one exactly when no
      accepted event between them was lost. */
  lemma LossIsDetectable(symbol: string, capacity: nat, inputs: seq<Input>)
    requires AllNumbered(inputs)
    ensures var h := Run(symbol, capacity, inputs);
      GapsShow(h.accepted, h.received)
  {
    var h := Run(symbol, capacity, inputs);
    FeedConserves(symbol, capacity, inputs);
    RisingIffNumbered(symbol, capacity, inputs);
    AllGapsShow(h.accepted);
    assert h.received == Delivered(h.accepted)[..|h.received|];
  }

  /** A zero between two copies of a message lets the second copy through. */
  lemma ZeroReopensTheFilter(symbol: string, capacity: nat, msg: Message, zero: Message)
    requires msg.seqNo > 0 && zero.seqNo == 0
    ensures var h := Run(symbol, capacity, [Arrive(msg), Arrive(zero), Arrive(msg)]);
      |h.accepted| == 3 && h.accepted[2].event.sequence == h.accepted[0].event.sequence
    ensures |Run(symbol, capacity, [Arrive(msg), Arrive(msg)]).accepted| == 1
  {
    var three := [Arrive(msg), Arrive(zero), Arrive(msg)];
    assert three[..2] == [Arrive(msg), Arrive(zero)] && three[..2][..1] == [Arrive(msg)];
    var two := [Arrive(msg), Arrive(msg)];
    assert two[..1] == [Arrive(msg)] && [Arrive(msg)][..0] == [];
    assert Run(symbol, capacity, [Arrive(msg)]).feed.last == msg.seqNo;
    assert Run(symbol, capacity, three[..2]).feed.last == 0;
  }
}
