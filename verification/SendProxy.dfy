/** The sending proxy of testsuit/chan/sieve2.go: a ring that doubles when it fills up, standing
    in for an unbounded queue.  A ring is a cyclic sequence; Link inserts cells behind a cell. */
module SendProxy {

  datatype Cell = Vacant | Holds(value: int)

  /** The cells from first up to last, going round the ring. */
  function Segment(cells: seq<Cell>, first: nat, last: nat): seq<Cell>
    requires first < |cells| && last < |cells|
  {
    if first <= last then cells[first..last] else cells[first..] + cells[..last]
  }

  function Next(cells: seq<Cell>, i: nat): nat { if i + 1 == |cells| then 0 else i + 1 }

  function Values(cells: seq<Cell>): seq<int>
    requires AllHold(cells)
  {
    seq(|cells|, i requires 0 <= i < |cells| => cells[i].value)
  }

  /** Writing behind the segment and moving last on appends one cell, when a slot is left. */
  lemma SegmentAppends(cells: seq<Cell>, first: nat, last: nat, c: Cell)
    requires first < |cells| && last < |cells| && Next(cells, last) != first
    ensures Segment(cells[last := c], first, Next(cells, last)) == Segment(cells, first, last) + [c]
  {}

  lemma SegmentDrops(cells: seq<Cell>, first: nat, last: nat)
    requires first < |cells| && last < |cells| && first != last
    ensures Segment(cells, Next(cells, first), last) == Segment(cells, first, last)[1..]
    ensures Segment(cells, first, last)[0] == cells[first]
  {}

  /** The ring after last.Link(extra). */
  function Linked(cells: seq<Cell>, last: nat, extra: seq<Cell>): seq<Cell>
    requires last < |cells|
  {
    cells[..last + 1] + extra + cells[last + 1..]
  }

  /** Inserting cells behind last leaves the segment as it was. */
  lemma SegmentSurvivesLink(cells: seq<Cell>, first: nat, last: nat, extra: seq<Cell>)
    requires first < |cells| && last < |cells|
    ensures var first' := if first > last then first + |extra| else first;
            Segment(Linked(cells, last, extra), first', last) == Segment(cells, first, last)
            && Linked(cells, last, extra)[last] == cells[last]
  {
    var linked := Linked(cells, last, extra);
    if first <= last {
      assert linked[first..last] == cells[first..last];
    } else {
      assert linked[..last] == cells[..last];
      assert linked[first + |extra|..] == cells[first..];
    }
  }

  lemma LinkedLength(cells: seq<Cell>, last: nat, extra: seq<Cell>)
    requires last < |cells|
    ensures |Linked(cells, last, extra)| == |cells| + |extra|
  {}

  lemma SegmentFull(cells: seq<Cell>, first: nat, last: nat)
    requires first < |cells| && last < |cells|
    ensures |Segment(cells, first, last)| + 1 == |cells| <==> Next(cells, last) == first
  {}

  ghost predicate AllHold(cells: seq<Cell>) { forall i :: 0 <= i < |cells| ==> cells[i].Holds? }

  lemma ValuesAppend(cells: seq<Cell>, c: Cell)
    requires AllHold(cells) && c.Holds?
    ensures AllHold(cells + [c]) && Values(cells + [c]) == Values(cells) + [c.value]
  {}

  lemma ValuesDrop(cells: seq<Cell>)
    requires AllHold(cells) && |cells| > 0
    ensures AllHold(cells[1..]) && Values(cells) == [cells[0].value] + Values(cells[1..])
  {}

  /** The slot written is outside the segment. */
  lemma SegmentIgnoresLast(cells: seq<Cell>, first: nat, last: nat, c: Cell)
    requires first < |cells| && last < |cells|
    ensures Segment(cells[last := c], first, last) == Segment(cells, first, last)
  {}

  /** Storing a value behind the segment, with the ring extended first when no other slot is left. */
  lemma StoreAppends(cells: seq<Cell>, first: nat, last: nat, c: Cell, extra: seq<Cell>)
    requires first < |cells| && last < |cells| && |extra| == |cells|
    ensures var stored := cells[last := c];
            if Next(cells, last) == first then
              var linked, first' := Linked(stored, last, extra), if first > last then first + |cells| else first;
              && |linked| == 2 * |cells| && first' < |linked|
              && Segment(linked, first', Next(linked, last)) == Segment(cells, first, last) + [c]
            else
              Segment(stored, first, Next(stored, last)) == Segment(cells, first, last) + [c]
  {
    hide Segment, Linked;
    SegmentIgnoresLast(cells, first, last, c);
    if Next(cells, last) == first {
      var stored := cells[last := c];
      var linked, first' := Linked(stored, last, extra), if first > last then first + |cells| else first;
      SegmentSurvivesLink(stored, first, last, extra);
      LinkedLength(stored, last, extra);
      SegmentAppends(linked, first', last, c);
      assert linked[last := c] == linked;
    } else {
      SegmentAppends(cells, first, last, c);
    }
  }

  // ----- The unbounded queue the proxy stands in for -----

  datatype Event = Arrive(e: int) | Depart

  datatype Fifo = Fifo(delivered: seq<int>, queue: seq<int>)

  /** The queue after one event; the output is disabled while the queue is empty. */
  function After(f: Fifo, x: Event): Fifo {
    match x
    case Arrive(e) => f.(queue := f.queue + [e])
    case Depart => if f.queue == [] then f else Fifo(f.delivered + [f.queue[0]], f.queue[1..])
  }

  function Served(queue: seq<int>, events: seq<Event>): Fifo {
    if events == [] then Fifo([], queue)
    else After(Served(queue, events[..|events| - 1]), events[|events| - 1])
  }

  function Arrivals(events: seq<Event>): seq<int> {
    if events == [] then []
    else
      var rest := Arrivals(events[..|events| - 1]);
      match events[|events| - 1]
      case Arrive(e) => rest + [e]
      case Depart => rest
  }

  /** Nothing is lost, invented or reordered. */
  lemma {:induction false} ServedConserves(queue: seq<int>, events: seq<Event>)
    ensures queue + Arrivals(events) == Served(queue, events).delivered + Served(queue, events).queue
  {
    if events != [] {
      ServedConserves(queue, events[..|events| - 1]);
      var f, x := Served(queue, events[..|events| - 1]), events[|events| - 1];
      if x.Arrive? {
        assert f.delivered + f.queue + [x.e] == f.delivered + (f.queue + [x.e]);
      } else if f.queue != [] {
        assert f.delivered + f.queue == f.delivered + [f.queue[0]] + f.queue[1..];
      }
    }
  }

  ghost predicate EndsWithDeparts(events: seq<Event>, m: nat) {
    m <= |events| && forall i :: |events| - m <= i < |events| ==> events[i].Depart?
  }

  /** The m oldest values delivered, or all when there are fewer. */
  function Delivering(f: Fifo, m: nat): Fifo {
    var k := if m <= |f.queue| then m else |f.queue|;
    Fifo(f.delivered + f.queue[..k], f.queue[k..])
  }

  lemma DeliveringMore(f: Fifo, m: nat)
    ensures After(Delivering(f, m), Depart) == Delivering(f, m + 1)
  {
    if m < |f.queue| {
      assert f.delivered + f.queue[..m] + [f.queue[m]] == f.delivered + f.queue[..m + 1];
      assert f.queue[m..][1..] == f.queue[m + 1..];
    }
  }

  /** m departures at the end deliver that many values. */
  lemma {:induction false} DepartsDeliver(queue: seq<int>, events: seq<Event>, m: nat)
    requires EndsWithDeparts(events, m)
    ensures Served(queue, events) == Delivering(Served(queue, events[..|events| - m]), m)
    decreases m
  {
    if m == 0 {
      assert events[..|events|] == events;
    } else {
      var n := |events| - 1;
      assert events[..n][..n - (m - 1)] == events[..|events| - m];
      DepartsDeliver(queue, events[..n], m - 1);
      hide Delivering, After;
      DeliveringMore(Served(queue, events[..|events| - m]), m - 1);
    }
  }

  /** Enough departures at the end deliver everything: what was queued and all that arrived, in order. */
  lemma Drained(queue: seq<int>, events: seq<Event>, m: nat)
    requires EndsWithDeparts(events, m) && m >= |Served(queue, events[..|events| - m]).queue|
    ensures Served(queue, events) == Fifo(queue + Arrivals(events), [])
  {
    hide Served, Arrivals;
    DepartsDeliver(queue, events, m);
    ServedConserves(queue, events);
  }

  class Proxy {
    var cells: seq<Cell>
    var n: nat
    var first: nat
    var last: nat
    ghost var received: seq<int>
    ghost var sent: seq<int>

    ghost predicate Valid()
      reads this
    {
      && n == |cells| && first < n && last < n
      && AllHold(Segment(cells, first, last))
      && received == sent + Queue()
    }

    /** What has been received and not yet sent; one slot of the ring stays free. */
    ghost function Queue(): (q: seq<int>)
      requires n == |cells| && first < n && last < n
      requires AllHold(Segment(cells, first, last))
      reads this
      ensures |q| < n && (q == [] <==> first == last)
    {
      Values(Segment(cells, first, last))
    }

    constructor (size: nat)
      requires size >= 1
      ensures Valid() && Queue() == [] && received == [] && n == size
    {
      cells := seq(size, _ => Vacant);
      n, first, last := size, 0, 0;
      received, sent := [], [];
    }

    /** A value arrives: it is queued, and the ring doubles when that used its last free slot. */
    method Receive(e: int)
      requires Valid()
      modifies this
      ensures Valid() && Queue() == old(Queue()) + [e]
      ensures received == old(received) + [e] && sent == old(sent)
      ensures n == (if |old(Queue())| + 1 == old(n) then 2 * old(n) else old(n))
    {
      var extra := seq(n, _ => Vacant);
      SegmentFull(cells, first, last);
      StoreAppends(cells, first, last, Holds(e), extra);
      ValuesAppend(Segment(cells, first, last), Holds(e));
      hide Segment, Linked, AllHold, Values;
      cells := cells[last := Holds(e)];
      if Next(cells, last) == first {
        cells := Linked(cells, last, extra);
        first := if first > last then first + n else first;
        n := 2 * n;
      }
      last := Next(cells, last);
      received := received + [e];
    }

    /** The oldest value leaves; the output is enabled exactly while the queue is not empty. */
    method Send() returns (e: int)
      requires Valid() && first != last
      modifies this
      ensures Valid() && old(Queue()) == [e] + Queue()
      ensures sent == old(sent) + [e] && received == old(received) && n == old(n)
    {
      SegmentDrops(cells, first, last);
      ValuesDrop(Segment(cells, first, last));
      e := cells[first].value;
      hide Segment, AllHold, Values;
      first := Next(cells, first);
      sent := sent + [e];
    }

    /** Any sequence of select choices: each takes a value from the sender or, when the output is
        enabled, gives one to the receiver.  The ring behaves as the unbounded queue does. */
    method Select(events: seq<Event>) returns (delivered: seq<int>)
      requires Valid()
      modifies this
      ensures Valid() && Fifo(delivered, Queue()) == Served(old(Queue()), events)
      ensures sent == old(sent) + delivered && received == old(received) + Arrivals(events)
      ensures forall m: nat ::
                EndsWithDeparts(events, m) && m >= |Served(old(Queue()), events[..|events| - m]).queue|
                ==> Queue() == [] && delivered == old(Queue()) + Arrivals(events)
    {
      delivered := [];
      for k := 0 to |events|
        invariant Valid() && sent == old(sent) + delivered
        invariant Fifo(delivered, Queue()) == Served(old(Queue()), events[..k])
        invariant received == old(received) + Arrivals(events[..k])
      {
        hide Segment, AllHold, Values;
        assert events[..k + 1][..k] == events[..k];
        match events[k]
        case Arrive(e) => Receive(e);
        case Depart =>
          if first != last {
            var e := Send();
            delivered := delivered + [e];
          }
      }
      assert events[..|events|] == events;
      forall m: nat | EndsWithDeparts(events, m) && m >= |Served(old(Queue()), events[..|events| - m]).queue|
        ensures Queue() == [] && delivered == old(Queue()) + Arrivals(events)
      {
        Drained(old(Queue()), events, m);
      }
    }
  }
}
