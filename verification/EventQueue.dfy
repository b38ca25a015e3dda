/** The queue of camera events (ptp.c): arrivals at the back, two ways to take one out. */
module EventQueue {
  import opened Bytes

  datatype Event = Event(code: u16, transactionId: u32, params: seq<u32>)

  datatype Op = Arrive(e: Event) | GetOne | GetByType(code: u16)

  /** The events received, the events delivered, and the queue, after some operations. */
  datatype History = History(received: seq<Event>, delivered: seq<Event>, queue: seq<Event>)

  function FirstOfType(queue: seq<Event>, code: u16): (r: Option<nat>)
    ensures r.Some? ==> r.value < |queue| && queue[r.value].code == code
    ensures r.Some? ==> forall i | 0 <= i < r.value :: queue[i].code != code
    ensures r.None? ==> forall i | 0 <= i < |queue| :: queue[i].code != code
  {
    if queue == [] then None
    else if queue[0].code == code then Some(0)
    else match FirstOfType(queue[1..], code)
      case None => None
      case Some(i) => Some(i + 1)
  }

  function Take(h: History, i: nat): History
    requires i < |h.queue|
  {
    History(h.received, h.delivered + [h.queue[i]], h.queue[..i] + h.queue[i + 1..])
  }

  function Step(h: History, op: Op): History {
    match op
    case Arrive(e) => History(h.received + [e], h.delivered, h.queue + [e])
    case GetOne => if h.queue == [] then h else Take(h, 0)
    case GetByType(code) =>
      match FirstOfType(h.queue, code)
      case None => h
      case Some(i) => Take(h, i)
  }

  function Run(ops: seq<Op>): History {
    if ops == [] then History([], [], []) else Step(Run(ops[..|ops| - 1]), ops[|ops| - 1])
  }

  /** The events of one type, in order. */
  function OfType(events: seq<Event>, code: u16): seq<Event> {
    if events == [] then []
    else OfType(events[..|events| - 1], code)
         + (if events[|events| - 1].code == code then [events[|events| - 1]] else [])
  }

  lemma OfTypeSnoc(events: seq<Event>, e: Event, code: u16)
    ensures OfType(events + [e], code) == OfType(events, code) + if e.code == code then [e] else []
  {
    assert (events + [e])[..|events|] == events;
  }

  lemma {:induction false} OfTypeAppend(a: seq<Event>, b: seq<Event>, code: u16)
    ensures OfType(a + b, code) == OfType(a, code) + OfType(b, code)
  {
    if b == [] {
      assert a + b == a;
    } else {
      var before, last := b[..|b| - 1], b[|b| - 1];
      assert a + b == (a + before) + [last];
      OfTypeAppend(a, before, code);
      OfTypeSnoc(a + before, last, code);
    }
  }

  lemma {:induction false} NoneOfType(events: seq<Event>, code: u16)
    requires forall i | 0 <= i < |events| :: events[i].code != code
    ensures OfType(events, code) == []
  {
    if events != [] {
      NoneOfType(events[..|events| - 1], code);
    }
  }

  lemma OfTypeAround(a: seq<Event>, e: Event, b: seq<Event>, code: u16)
    requires forall i | 0 <= i < |a| :: a[i].code != e.code
    ensures OfType((a + [e]) + b, code) == (if e.code == code then [e] else []) + OfType(a + b, code)
  {
    OfTypeAppend(a + [e], b, code);
    OfTypeSnoc(a, e, code);
    OfTypeAppend(a, b, code);
    if e.code == code {
      NoneOfType(a, code);
    }
  }

  /** Taking out the first event of its type leaves the other types alone and its own type one shorter at the
      front. */
  lemma TakeOfType(queue: seq<Event>, i: nat, code: u16)
    requires i < |queue| && forall j | 0 <= j < i :: queue[j].code != queue[i].code
    ensures OfType(queue, code)
         == (if queue[i].code == code then [queue[i]] else []) + OfType(queue[..i] + queue[i + 1..], code)
  {
    OfTypeAround(queue[..i], queue[i], queue[i + 1..], code);
    assert queue == (queue[..i] + [queue[i]]) + queue[i + 1..];
  }

  /** Order and conservation, per type: under any interleaving of arrivals and both ways of taking events out,
      the events of every type are delivered in the order of their arrival, and those not delivered yet are
      queued in that order; none is lost, doubled or overtaken by another of its type. */
  lemma {:induction false} TypesKeepOrder(ops: seq<Op>, code: u16)
    ensures var h := Run(ops);
      OfType(h.received, code) == OfType(h.delivered, code) + OfType(h.queue, code)
  {
    if ops != [] {
      var h, op := Run(ops[..|ops| - 1]), ops[|ops| - 1];
      TypesKeepOrder(ops[..|ops| - 1], code);
      match op
      case Arrive(e) =>
        OfTypeSnoc(h.received, e, code);
        OfTypeSnoc(h.queue, e, code);
      case GetOne =>
        if h.queue != [] { TakeKeepsOrder(h, 0, code); }
      case GetByType(c) =>
        var at := FirstOfType(h.queue, c);
        if at.Some? { TakeKeepsOrder(h, at.value, code); }
    }
  }

  lemma TakeKeepsOrder(h: History, i: nat, code: u16)
    requires i < |h.queue| && forall j | 0 <= j < i :: h.queue[j].code != h.queue[i].code
    requires OfType(h.received, code) == OfType(h.delivered, code) + OfType(h.queue, code)
    ensures var t := Take(h, i);
      OfType(t.received, code) == OfType(t.delivered, code) + OfType(t.queue, code)
  {
    TakeOfType(h.queue, i, code);
    OfTypeSnoc(h.delivered, h.queue[i], code);
  }

  /** Delivered and queued events together are exactly those received. */
  lemma {:induction false} NothingLost(ops: seq<Op>)
    ensures var h := Run(ops); multiset(h.received) == multiset(h.delivered) + multiset(h.queue)
  {
    if ops != [] {
      var h, op := Run(ops[..|ops| - 1]), ops[|ops| - 1];
      NothingLost(ops[..|ops| - 1]);
      match op
      case Arrive(e) =>
      case GetOne =>
        if h.queue != [] { TakeKeepsAll(h, 0); }
      case GetByType(c) =>
        var at := FirstOfType(h.queue, c);
        if at.Some? { TakeKeepsAll(h, at.value); }
    }
  }

  lemma TakeKeepsAll(h: History, i: nat)
    requires i < |h.queue|
    ensures multiset(Take(h, i).delivered) + multiset(Take(h, i).queue) == multiset(h.delivered) + multiset(h.queue)
  {
    assert h.queue == h.queue[..i] + [h.queue[i]] + h.queue[i + 1..];
  }

  /** The others keep arrival order: the queue is the received events with some left out. */
  ghost predicate Subsequence(part: seq<Event>, whole: seq<Event>) {
    part == [] || (whole != [] &&
      if part[|part| - 1] == whole[|whole| - 1]
      then Subsequence(part[..|part| - 1], whole[..|whole| - 1])
      else Subsequence(part, whole[..|whole| - 1]))
  }

  lemma SubsequenceArrive(part: seq<Event>, whole: seq<Event>, e: Event)
    requires Subsequence(part, whole)
    ensures Subsequence(part + [e], whole + [e])
  {
    assert (part + [e])[..|part|] == part && (whole + [e])[..|whole|] == whole;
  }

  lemma {:induction false} SubsequenceDropLast(part: seq<Event>, whole: seq<Event>)
    requires Subsequence(part, whole) && part != []
    ensures Subsequence(part[..|part| - 1], whole)
    decreases |whole|, 1
  {
    var p, w := part[..|part| - 1], whole[..|whole| - 1];
    if part[|part| - 1] == whole[|whole| - 1] {
      SubsequenceWeaken(p, w, whole);
    } else {
      SubsequenceDropLast(part, w);
      SubsequenceWeaken(p, w, whole);
    }
  }

  lemma {:induction false} SubsequenceWeaken(part: seq<Event>, shorter: seq<Event>, whole: seq<Event>)
    requires whole != [] && shorter == whole[..|whole| - 1] && Subsequence(part, shorter)
    ensures Subsequence(part, whole)
    decreases |whole|, 0
  {
    if part != [] && part[|part| - 1] == whole[|whole| - 1] {
      SubsequenceDropLast(part, shorter);
    }
  }

  lemma {:induction false} SubsequenceTake(part: seq<Event>, whole: seq<Event>, i: nat)
    requires Subsequence(part, whole) && i < |part|
    ensures Subsequence(part[..i] + part[i + 1..], whole)
    decreases |whole|
  {
    var n := |part| - 1;
    var w := whole[..|whole| - 1];
    var less := part[..i] + part[i + 1..];
    if i == n {
      assert less == part[..n];
      SubsequenceDropLast(part, whole);
    } else if part[n] == whole[|whole| - 1] {
      SubsequenceTake(part[..n], w, i);
      assert less[..n - 1] == part[..n][..i] + part[..n][i + 1..];
    } else {
      SubsequenceTake(part, w, i);
    }
  }

  lemma {:induction false} QueueKeepsArrivalOrder(ops: seq<Op>)
    ensures Subsequence(Run(ops).queue, Run(ops).received)
  {
    if ops != [] {
      var h, op := Run(ops[..|ops| - 1]), ops[|ops| - 1];
      QueueKeepsArrivalOrder(ops[..|ops| - 1]);
      match op
      case Arrive(e) => SubsequenceArrive(h.queue, h.received, e);
      case GetOne =>
        if h.queue != [] { SubsequenceTake(h.queue, h.received, 0); }
      case GetByType(c) =>
        var at := FirstOfType(h.queue, c);
        if at.Some? { SubsequenceTake(h.queue, h.received, at.value); }
    }
  }

  /** With plain gets only, the queue is first in, first out. */
  lemma {:induction false} PlainGetsAreFifo(ops: seq<Op>)
    requires forall i | 0 <= i < |ops| :: !ops[i].GetByType?
    ensures var h := Run(ops); h.received == h.delivered + h.queue
  {
    if ops != [] {
      PlainGetsAreFifo(ops[..|ops| - 1]);
      var h := Run(ops[..|ops| - 1]);
      if ops[|ops| - 1].GetOne? && h.queue != [] {
        assert h.queue == [h.queue[0]] + h.queue[1..];
      }
    }
  }

  class PTPEvents {
    var events: seq<Event>
    ghost var received: seq<Event>
    ghost var delivered: seq<Event>

    ghost function AsHistory(): History
      reads this
    {
      History(received, delivered, events)
    }

    constructor ()
      ensures AsHistory() == Run([])
    {
      events, received, delivered := [], [], [];
    }

    /** ptp_add_event */
    method Add(event: Event)
      modifies this
      ensures AsHistory() == Step(old(AsHistory()), Arrive(event))
    {
      events := events + [event];
      received := received + [event];
    }

    /** ptp_get_one_event */
    method GetOneEvent() returns (event: Option<Event>)
      modifies this
      ensures AsHistory() == Step(old(AsHistory()), GetOne)
      ensures event == if old(events) == [] then None else Some(old(events)[0])
    {
      if |events| == 0 { return None; }
      event := Some(events[0]);
      delivered := delivered + [events[0]];
      events := events[1..];
    }

    /** ptp_get_one_event_by_type: the oldest event of the type, wherever it stands. */
    method GetOneEventByType(code: u16) returns (event: Option<Event>)
      modifies this
      ensures AsHistory() == Step(old(AsHistory()), GetByType(code))
      ensures event.None? <==> forall i | 0 <= i < |old(events)| :: old(events)[i].code != code
      ensures event.Some? ==> event.value.code == code && delivered == old(delivered) + [event.value]
    {
      var i := 0;
      while i < |events|
        invariant 0 <= i <= |events|
        invariant forall j | 0 <= j < i :: events[j].code != code
      {
        if events[i].code == code {
          event := Some(events[i]);
          delivered := delivered + [events[i]];
          events := events[..i] + events[i + 1..];
          return;
        }
        i := i + 1;
      }
      event := None;
    }
  }
}
