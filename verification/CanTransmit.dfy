/** Transmission with loopback echo: `m_can_start_xmit`, the controller's TX FIFO
    and TX event FIFO, and the TX part of `m_can_isr`, as interleaved steps. */
module CanTransmit {
  import opened CanCodec
  import CanLayout
  import opened Wrappers

  /** A TX FIFO element waiting for the bus: where it is, its second word, and
      the frame that will go out. */
  datatype Slot = Slot(index: nat, t1: bv32, frame: CanFrame)

  datatype TxResult = TxOk | TxBusy

  datatype Step = Xmit(frame: CanFrame) | Complete(rest: bv32) | Interrupt

  function TotalLen(fs: seq<CanFrame>): nat {
    if fs == [] then 0 else TotalLen(fs[..|fs|-1]) + fs[|fs|-1].len
  }

  lemma TotalLenAppend(fs: seq<CanFrame>, f: CanFrame)
    ensures TotalLen(fs + [f]) == TotalLen(fs) + f.len
  {
    assert (fs + [f])[..|fs|] == fs;
  }

  // ----- the ring of echo slots

  function Wrap(i: nat, slots: nat): nat {
    if i < slots then i else i - slots
  }

  /** Steps forward from slot `from` to slot `to` around the ring. */
  function Ahead(from: nat, to: nat, slots: nat): (d: nat)
    requires from < slots && to < slots
    ensures d < slots && Wrap(from + d, slots) == to
  {
    if to >= from then to - from else to + slots - from
  }

  /** The occupied slots are exactly those of the frames `win`, in order from
      slot `first` on. */
  ghost predicate Ring(echo: seq<Option<CanFrame>>, first: nat, win: seq<CanFrame>) {
    && first < |echo| && |win| <= |echo|
    && forall j: nat | j < |echo| ::
         var d := Ahead(first, j, |echo|);
         echo[j] == if d < |win| then Some(win[d]) else None
  }

  lemma RingFits(echo: seq<Option<CanFrame>>, first: nat, win: seq<CanFrame>)
    requires Ring(echo, first, win)
    ensures first < |echo| && |win| <= |echo|
  {
  }

  lemma RingPut(echo: seq<Option<CanFrame>>, first: nat, win: seq<CanFrame>, f: CanFrame)
    requires Ring(echo, first, win) && |win| < |echo|
    ensures var put := Wrap(first + |win|, |echo|);
            && put < |echo| && echo[put].None? && Ring(echo[put := Some(f)], first, win + [f])
            && Wrap(put + 1, |echo|) == Wrap(first + |win| + 1, |echo|) < |echo|
            && (echo[put := Some(f)][Wrap(put + 1, |echo|)].Some? <==> |win| + 1 == |echo|)
  {
    assert Ahead(first, Wrap(first + |win|, |echo|), |echo|) == |win|;
  }

  lemma RingTake(echo: seq<Option<CanFrame>>, first: nat, win: seq<CanFrame>)
    requires Ring(echo, first, win) && win != []
    ensures echo[first] == Some(win[0]) && Wrap(first + 1, |echo|) < |echo|
            && Ring(echo[first := None], Wrap(first + 1, |echo|), win[1..])
    ensures Wrap(Wrap(first + 1, |echo|) + (|win| - 1), |echo|) == Wrap(first + |win|, |echo|)
  {
  }

  /** The events name the slots from `first` on, in order. */
  ghost predicate EventsFrom(events: seq<bv32>, first: nat, slots: nat) {
    forall i: nat | i < |events| :: EventMarker(events[i]) == Wrap(first + i, slots)
  }

  /** So do the waiting elements, which carry their slot as message marker. */
  ghost predicate PendingFrom(pending: seq<Slot>, first: nat, slots: nat) {
    forall i: nat | i < |pending| ::
      && pending[i].frame.Valid() && pending[i].index == Wrap(first + i, slots) && pending[i].index < 32
      && pending[i].t1 == DlcWord(pending[i].frame, pending[i].index)
  }

  function Frames(pending: seq<Slot>): (fs: seq<CanFrame>)
    ensures |fs| == |pending|
  {
    seq(|pending|, i requires 0 <= i < |pending| => pending[i].frame)
  }

  /** The occupied echo slots are the frames that are completed but unread or
      still waiting, each in the slot its event will name. */
  ghost predicate Tracked(echo: seq<Option<CanFrame>>, first: nat, events: seq<bv32>, completed: seq<CanFrame>,
                          pending: seq<Slot>, win: seq<CanFrame>) {
    && Ring(echo, first, win) && |completed| == |events| && win == completed + Frames(pending)
    && EventsFrom(events, first, |echo|) && PendingFrom(pending, Wrap(first + |events|, |echo|), |echo|)
  }

  lemma TrackPut(echo: seq<Option<CanFrame>>, first: nat, put: nat, events: seq<bv32>,
                 completed: seq<CanFrame>, pending: seq<Slot>, win: seq<CanFrame>, f: CanFrame)
    requires Tracked(echo, first, events, completed, pending, win) && |win| < |echo| <= 32 && f.Valid()
    requires put == Wrap(first + |win|, |echo|)
    ensures echo[put].None? && |win| == |events| + |pending|
    ensures Wrap(put + 1, |echo|) == Wrap(first + |win| + 1, |echo|) < |echo|
    ensures Tracked(echo[put := Some(f)], first, events, completed, pending + [Slot(put, DlcWord(f, put), f)],
            win + [f])
    ensures echo[put := Some(f)][Wrap(put + 1, |echo|)].Some? <==> |win| + 1 == |echo|
  {
    hide Ring, PendingFrom, EventsFrom, DlcWord, Frames;
    RingFits(echo, first, win);
    RingPut(echo, first, win, f);
    WrapTwice(first, |events|, |pending|, |echo|);
    PendingAppend(pending, Wrap(first + |events|, |echo|), |echo|, put, f);
  }

  lemma PendingAppend(pending: seq<Slot>, first: nat, slots: nat, put: nat, f: CanFrame)
    requires PendingFrom(pending, first, slots) && f.Valid() && put < 32 && put == Wrap(first + |pending|, slots)
    ensures PendingFrom(pending + [Slot(put, DlcWord(f, put), f)], first, slots)
    ensures Frames(pending + [Slot(put, DlcWord(f, put), f)]) == Frames(pending) + [f]
  {
    hide DlcWord;
  }

  lemma EventAppend(events: seq<bv32>, first: nat, slots: nat, head: Slot, e1: bv32)
    requires EventsFrom(events, first, slots) && head.frame.Valid() && head.index < 32
    requires head.t1 == DlcWord(head.frame, head.index) && e1 & MM_MASK == head.t1 & MM_MASK
    requires head.index == Wrap(first + |events|, slots)
    ensures EventsFrom(events + [e1], first, slots)
  {
    MarkerRoundTrip(head.frame, head.index);
    assert EventMarker(e1) == EventMarker(head.t1);
    hide DlcWord, EventMarker;
  }

  lemma PendingDrop(pending: seq<Slot>, first: nat, slots: nat)
    requires pending != [] && PendingFrom(pending, first, slots) && first < slots && |pending| <= slots
    ensures PendingFrom(pending[1..], Wrap(first + 1, slots), slots)
    ensures Frames(pending) == [pending[0].frame] + Frames(pending[1..])
    ensures pending[0].frame.Valid() && pending[0].index == first < 32
    ensures pending[0].t1 == DlcWord(pending[0].frame, first)
  {
    hide DlcWord;
  }

  /** The oldest waiting element becomes the newest event. */
  lemma TrackComplete(echo: seq<Option<CanFrame>>, first: nat, events: seq<bv32>,
                      completed: seq<CanFrame>, pending: seq<Slot>, win: seq<CanFrame>, e1: bv32)
    requires Tracked(echo, first, events, completed, pending, win) && pending != []
            && e1 & MM_MASK == pending[0].t1 & MM_MASK
    ensures Tracked(echo, first, events + [e1], completed + [pending[0].frame], pending[1..], win)
  {
    hide PendingFrom, EventsFrom, DlcWord, Frames;
    PendingDrop(pending, Wrap(first + |events|, |echo|), |echo|);
    EventAppend(events, first, |echo|, pending[0], e1);
    WrapTwice(first, |events|, 1, |echo|);
  }

  /** It asks for its event. */
  lemma HeadAsks(echo: seq<Option<CanFrame>>, first: nat, events: seq<bv32>, completed: seq<CanFrame>,
                 pending: seq<Slot>, win: seq<CanFrame>)
    requires Tracked(echo, first, events, completed, pending, win) && pending != []
    ensures pending[0].t1 & BUF_EFC != 0
  {
    hide EventsFrom, DlcWord, Frames, Ring;
    CanLayout.SecondWordLayout(pending[0].frame, pending[0].index);
  }

  lemma EventsDrop(events: seq<bv32>, first: nat, slots: nat)
    requires EventsFrom(events, first, slots) && first < slots && 0 < |events| <= slots
    ensures EventMarker(events[0]) == first && EventsFrom(events[1..], Wrap(first + 1, slots), slots)
  {
    hide EventMarker;
  }

  /** The oldest event names the slot of the oldest frame, which is released. */
  lemma TrackEcho(echo: seq<Option<CanFrame>>, first: nat, events: seq<bv32>,
                  completed: seq<CanFrame>, pending: seq<Slot>, win: seq<CanFrame>)
    requires Tracked(echo, first, events, completed, pending, win) && events != []
    ensures EventMarker(events[0]) == first < |echo| && echo[first] == Some(win[0])
    ensures win != [] && completed[0] == win[0]
    ensures Tracked(echo[first := None], Wrap(first + 1, |echo|), events[1..], completed[1..], pending, win[1..])
    ensures Wrap(first + 1, |echo|) < |echo|
    ensures Wrap(Wrap(first + 1, |echo|) + (|win| - 1), |echo|) == Wrap(first + |win|, |echo|)
  {
    hide EventMarker, Ring, PendingFrom, EventsFrom, Wrap;
    RingFits(echo, first, win);
    RingTake(echo, first, win);
    EventsDrop(events, first, |echo|);
    WrapTwice(first, 1, |events| - 1, |echo|);
  }

  lemma WrapTwice(first: nat, a: nat, b: nat, slots: nat)
    requires first < slots && a + b <= slots
    ensures Wrap(Wrap(first + a, slots) + b, slots) == Wrap(first + a + b, slots)
  {
  }

  /** Every frame sent is echoed, completed or waiting, once and in order, and
      the statistics count the echoed ones. */
  ghost predicate Kept(sent: seq<CanFrame>, echoed: seq<CanFrame>, window: seq<CanFrame>, txPackets: nat,
                       txBytes: nat) {
    sent == echoed + window && txPackets == |echoed| && txBytes == TotalLen(echoed)
  }

  lemma KeptEcho(sent: seq<CanFrame>, echoed: seq<CanFrame>, window: seq<CanFrame>, txPackets: nat, txBytes: nat)
    requires Kept(sent, echoed, window, txPackets, txBytes) && window != []
    ensures Kept(sent, echoed + [window[0]], window[1..], txPackets + 1, txBytes + window[0].len)
  {
    TotalLenAppend(echoed, window[0]);
    assert echoed + window == (echoed + [window[0]]) + window[1..];
  }

  class MCan {
    /** `echo_skb_max`, also the size of the TX FIFO. */
    const slots: nat
    /** Size of the TX event FIFO. */
    const eventSlots: nat
    const echo: array<Option<CanFrame>>
    /** The controller: put index, FIFO oldest first, events' second words. */
    var put: nat
    var pending: seq<Slot>
    var events: seq<bv32>
    var newEvent: bool
    var lost: nat
    /** The network device. */
    var stopped: bool
    var txPackets: nat
    var txBytes: nat
    ghost var sent: seq<CanFrame>
    ghost var completed: seq<CanFrame>
    ghost var echoed: seq<CanFrame>
    /** The frames in the echo slots, oldest first, and the slot of the first. */
    ghost var window: seq<CanFrame>
    ghost var oldest: nat

    ghost predicate Shape()
      reads this, echo
    {
      && 1 <= slots <= 32 && echo.Length == slots
      && |events| == |completed| <= eventSlots && |window| == |events| + |pending| <= slots
      && Tracked(echo[..], oldest, events, completed, pending, window)
      && put == Wrap(oldest + |window|, slots) < slots
    }

    /** Between steps the queue is stopped exactly when every slot is occupied,
        and unread events are announced. */
    ghost predicate Valid()
      reads this, echo
    {
      Shape() && (stopped <==> |window| == slots) && (events != [] ==> newEvent)
    }

    ghost predicate Conserved()
      reads this
    {
      Kept(sent, echoed, window, txPackets, txBytes) && lost == 0
    }

    /** What of it all is in frames. */
    ghost function View(): Tx
      reads this
    {
      Tx(Frames(pending), completed, echoed, lost)
    }

    constructor (slots: nat, eventSlots: nat)
      requires 1 <= slots <= 32
      ensures View() == IDLE && Valid() && Conserved() && this.slots == slots && this.eventSlots == eventSlots
      ensures fresh(echo) && pending == [] && sent == [] && !stopped
    {
      this.slots, this.eventSlots := slots, eventSlots;
      echo := new Option<CanFrame>[slots](_ => None);
      put, pending, events, newEvent, lost := 0, [], [], false, 0;
      stopped, txPackets, txBytes := false, 0, 0;
      sent, completed, echoed, window, oldest := [], [], [], [], 0;
    }

    predicate FifoFull()
      reads this
    {
      |pending| == slots
    }

    /** `can_put_echo_skb`: an occupied slot is a bug and is left alone. */
    method PutEcho(f: CanFrame, idx: nat)
      requires idx < echo.Length
      modifies echo
      ensures echo[..] == if old(echo[idx]).None? then old(echo[..])[idx := Some(f)] else old(echo[..])
    {
      if echo[idx].None? { echo[idx] := Some(f); }
    }

    /** `m_can_next_echo_skb_occupied`. */
    predicate NextEchoOccupied(putidx: nat)
      requires 0 < echo.Length == slots && putidx < slots
      reads this, echo
    {
      var next := if putidx + 1 >= slots then 0 else putidx + 1;
      echo[next].Some?
    }

    /** `m_can_start_xmit`. The network stack calls it on an active queue only,
        and then the FIFO has room: the branch for a full FIFO is never taken. */
    method StartXmit(f: CanFrame) returns (r: TxResult)
      requires Valid() && (!stopped || FifoFull())
      modifies this`put, this`pending, this`stopped, this`sent, this`window, echo
      ensures Valid() && (old(!stopped) ==> r == TxOk)
      ensures r == TxBusy <==> f.Valid() && old(FifoFull())
      ensures window == old(window) + (if f.Valid() && r == TxOk then [f] else [])
      ensures sent == old(sent) + (if f.Valid() && r == TxOk then [f] else [])
    {
      hide Tracked;
      if !f.Valid() { return TxOk; }
      if FifoFull() {
        stopped := true;
        return TxBusy;
      }
      var putidx := put;
      PutElement(f);
      if FifoFull() || NextEchoOccupied(putidx) { stopped := true; }
      return TxOk;
    }

    /** The element is written at the put index, which also names the echo slot. */
    method PutElement(f: CanFrame)
      requires Shape() && |window| < slots && f.Valid()
      modifies this`put, this`pending, this`sent, this`window, echo
      ensures Shape() && old(echo[put]).None?
      ensures window == old(window) + [f] && sent == old(sent) + [f]
      ensures NextEchoOccupied(old(put)) <==> |window| == slots
    {
      hide Tracked, DlcWord, Wrap;
      TrackPut(echo[..], oldest, put, events, completed, pending, window, f);
      pending := pending + [Slot(put, DlcWord(f, put), f)];
      PutEcho(f, put);
      put := NextPut();
      window := window + [f];
      sent := sent + [f];
    }

    function NextPut(): (p: nat)
      requires put < slots
      reads this
      ensures p == Wrap(put + 1, slots)
    {
      if put + 1 == slots then 0 else put + 1
    }

    /** The controller sends the oldest element and, if bit 23 of its second word asks for
        one, stores an event that carries its message marker, unless the event FIFO is full. */
    method HwComplete(e1: bv32)
      requires Valid() && pending != [] && e1 & MM_MASK == pending[0].t1 & MM_MASK
      modifies this`pending, this`events, this`completed, this`newEvent, this`lost
      ensures old(|events|) < eventSlots ==>
                && Valid() && window == old(window) && events == old(events) + [e1]
                && completed == old(completed) + [old(pending[0].frame)] && lost == old(lost)
      ensures old(|events|) >= eventSlots ==>
              events == old(events) && completed == old(completed) && lost == old(lost) + 1
      ensures pending == old(pending)[1..]
    {
      hide Tracked, DlcWord;
      TrackComplete(echo[..], oldest, events, completed, pending, window, e1);
      HeadAsks(echo[..], oldest, events, completed, pending, window);
      var head := pending[0];
      pending := pending[1..];
      if head.t1 & BUF_EFC == 0 {
        return;
      }
      if |events| < eventSlots {
        events := events + [e1];
        completed := completed + [head.frame];
        newEvent := true;
      } else {
        lost := lost + 1;
      }
    }

    /** `can_get_echo_skb`: hands the frame back to the stack and frees the slot. */
    method GetEcho(idx: nat) returns (len: nat)
      requires idx < echo.Length
      modifies echo
      ensures len == if old(echo[idx]).Some? then old(echo[idx]).value.len else 0
      ensures echo[..] == old(echo[..])[idx := None]
    {
      len := if echo[idx].Some? then echo[idx].value.len else 0;
      echo[idx] := None;
    }

    /** One round of `m_can_echo_tx_event`. */
    method EchoOldest()
      requires Shape() && Conserved() && events != []
      modifies this`events, this`completed, this`echoed, this`window, this`oldest, this`txPackets, this`txBytes, echo
      ensures Shape() && Conserved() && events == old(events)[1..]
      ensures completed == old(completed)[1..] && echoed == old(echoed) + [old(completed[0])]
    {
      hide Tracked, EventMarker, Wrap, Kept;
      TrackEcho(echo[..], oldest, events, completed, pending, window);
      KeptEcho(sent, echoed, window, txPackets, txBytes);
      var msgMark := EventMarker(events[0]);
      events := events[1..];
      completed := completed[1..];
      oldest := Wrap(oldest + 1, slots);
      echoed := echoed + [window[0]];
      window := window[1..];
      var len := GetEcho(msgMark);
      txBytes := txBytes + len;
      txPackets := txPackets + 1;
    }

    /** `m_can_echo_tx_event`: every event there is, oldest first. */
    method EchoTxEvents()
      requires Shape() && Conserved()
      modifies this`events, this`completed, this`echoed, this`window, this`oldest, this`txPackets, this`txBytes, echo
      ensures Shape() && Conserved() && events == []
      ensures completed == [] && echoed == old(echoed) + old(completed)
    {
      hide Tracked, Kept;
      var count := |events|;
      for i := 0 to count
        invariant |events| == count - i
        invariant Shape() && Conserved()
        invariant completed == old(completed)[i..] && echoed == old(echoed) + old(completed)[..i]
      {
        EchoOldest();
      }
    }

    /** The TX part of `m_can_isr`, run as one step: it acknowledges the interrupt,
        echoes what has completed, and wakes the queue if the FIFO has room. */
    method Isr()
      requires Valid() && Conserved()
      modifies this`events, this`completed, this`echoed, this`window, this`oldest, this`txPackets, this`txBytes,
              this`newEvent, this`stopped, echo
      ensures Valid() && Conserved()
      ensures echoed == old(echoed) + old(completed) && completed == []
    {
      hide Tracked, Kept;
      if newEvent {
        newEvent := false;
        EchoTxEvents();
        if stopped && !FifoFull() { stopped := false; }
      }
    }
  }

  /** An event word that carries the marker of the element it reports. */
  function EventWord(t1: bv32, rest: bv32): (e1: bv32)
    ensures e1 & MM_MASK == t1 & MM_MASK
  {
    (t1 & MM_MASK) | (rest & 0x00ffffff)
  }

  // ----- what a run of steps means

  /** The frames on their way, oldest first: waiting for the bus, completed but not yet
      read back, echoed to the stack; and how many events were lost. */
  datatype Tx = Tx(pending: seq<CanFrame>, completed: seq<CanFrame>, echoed: seq<CanFrame>, lost: nat)
  const IDLE := Tx([], [], [], 0)

  /** One step on `slots` echo slots and an event FIFO of `eventSlots`. A frame offered
      to a stopped queue and a completion with nothing waiting do not happen. */
  function TxStep(t: Tx, step: Step, slots: nat, eventSlots: nat): Tx {
    match step
    case Xmit(f) =>
      if f.Valid() && |t.completed| + |t.pending| < slots then t.(pending := t.pending + [f]) else t
    case Complete(_) =>
      if t.pending == [] then t
      else if |t.completed| < eventSlots then
        t.(pending := t.pending[1..], completed := t.completed + [t.pending[0]])
      else t.(pending := t.pending[1..], lost := t.lost + 1)
    case Interrupt => t.(completed := [], echoed := t.echoed + t.completed)
  }

  function TxRun(t: Tx, steps: seq<Step>, slots: nat, eventSlots: nat): Tx {
    if steps == [] then t
    else TxStep(TxRun(t, steps[..|steps|-1], slots, eventSlots), steps[|steps|-1], slots, eventSlots)
  }

  /** The frames a run takes in: the valid ones offered while a slot is free. */
  function Accepted(t: Tx, steps: seq<Step>, slots: nat, eventSlots: nat): seq<CanFrame> {
    if steps == [] then []
    else
      var before, last := steps[..|steps|-1], steps[|steps|-1];
      var u := TxRun(t, before, slots, eventSlots);
      Accepted(t, before, slots, eventSlots)
      + if last.Xmit? && last.frame.Valid() && |u.completed| + |u.pending| < slots then [last.frame] else []
  }

  function OnTheWay(t: Tx): seq<CanFrame> { t.echoed + t.completed + t.pending }

  lemma StepKeepsOrder(t: Tx, step: Step, slots: nat, eventSlots: nat)
    requires slots <= eventSlots && |t.completed| + |t.pending| <= slots
    ensures var u := TxStep(t, step, slots, eventSlots);
            && |u.completed| + |u.pending| <= slots && u.lost == t.lost
            && OnTheWay(u) == OnTheWay(t) + if step.Xmit? && step.frame.Valid() && |t.completed| + |t.pending| < slots
                                            then [step.frame] else []
  {
    match step
    case Xmit(f) => assert OnTheWay(t.(pending := t.pending + [f])) == OnTheWay(t) + [f];
    case Complete(_) =>
      if t.pending != [] { assert t.pending == [t.pending[0]] + t.pending[1..]; }
    case Interrupt => assert t.echoed + t.completed + [] + t.pending == t.echoed + t.completed + t.pending;
  }

  /** With an event FIFO no smaller than the TX FIFO nothing is lost, duplicated or
      reordered: echoed, completed and waiting frames are those taken in, in order. */
  lemma {:induction false} RunKeepsOrder(steps: seq<Step>, slots: nat, eventSlots: nat)
    requires slots <= eventSlots
    ensures var t := TxRun(IDLE, steps, slots, eventSlots);
            && t.lost == 0 && |t.completed| + |t.pending| <= slots
            && OnTheWay(t) == Accepted(IDLE, steps, slots, eventSlots)
  {
    hide TxStep, OnTheWay;
    if steps == [] {
      NothingOnTheWay();
    } else {
      var before := steps[..|steps|-1];
      RunKeepsOrder(before, slots, eventSlots);
      StepKeepsOrder(TxRun(IDLE, before, slots, eventSlots), steps[|steps|-1], slots, eventSlots);
    }
  }

  lemma NothingOnTheWay()
    ensures OnTheWay(IDLE) == []
  {
  }

  // ----- what the size of the event FIFO decides

  function Repeat(step: Step, n: nat): (s: seq<Step>)
    ensures |s| == n
  {
    seq(n, _ => step)
  }

  lemma RepeatMore(prefix: seq<Step>, step: Step, n: nat)
    requires n > 0
    ensures prefix + Repeat(step, n) == prefix + Repeat(step, n - 1) + [step]
  {
    assert Repeat(step, n) == Repeat(step, n - 1) + [step];
  }

  lemma RunNothing(t: Tx, slots: nat, eventSlots: nat)
    ensures TxRun(t, [], slots, eventSlots) == t
  {
  }

  lemma RunLast(t: Tx, steps: seq<Step>, last: Step, slots: nat, eventSlots: nat)
    ensures TxRun(t, steps + [last], slots, eventSlots)
            == TxStep(TxRun(t, steps, slots, eventSlots), last, slots, eventSlots)
  {
    hide TxStep;
    assert (steps + [last])[..|steps|] == steps;
  }

  lemma {:induction false} FillsUp(f: CanFrame, n: nat, slots: nat, eventSlots: nat)
    requires f.Valid() && n <= slots
    ensures var t := TxRun(IDLE, Repeat(Xmit(f), n), slots, eventSlots);
            |t.pending| == n && t.completed == [] && t.lost == 0
  {
    hide TxRun;
    if n == 0 {
      RunNothing(IDLE, slots, eventSlots);
      assert Repeat(Xmit(f), 0) == [];
    } else {
      FillsUp(f, n - 1, slots, eventSlots);
      assert Repeat(Xmit(f), n) == Repeat(Xmit(f), n - 1) + [Xmit(f)];
      RunLast(IDLE, Repeat(Xmit(f), n - 1), Xmit(f), slots, eventSlots);
    }
  }

  lemma {:induction false} CompletesAll(f: CanFrame, m: nat, n: nat, slots: nat, eventSlots: nat)
    requires f.Valid() && m <= n <= slots && m <= eventSlots
    ensures var t := TxRun(IDLE, Repeat(Xmit(f), n) + Repeat(Complete(0), m), slots, eventSlots);
            |t.pending| == n - m && |t.completed| == m && t.lost == 0
  {
    hide TxRun;
    if m == 0 {
      FillsUp(f, n, slots, eventSlots);
      assert Repeat(Xmit(f), n) + Repeat(Complete(0), 0) == Repeat(Xmit(f), n);
    } else {
      CompletesAll(f, m - 1, n, slots, eventSlots);
      RepeatMore(Repeat(Xmit(f), n), Complete(0), m);
      RunLast(IDLE, Repeat(Xmit(f), n) + Repeat(Complete(0), m - 1), Complete(0), slots, eventSlots);
    }
  }

  /** One frame more than the event FIFO holds, all completed before any is read back. */
  function Overflow(f: CanFrame, eventSlots: nat): seq<Step> {
    Repeat(Xmit(f), eventSlots + 1) + Repeat(Complete(0), eventSlots + 1)
  }

  lemma OverflowLoses(f: CanFrame, slots: nat, eventSlots: nat)
    requires f.Valid() && eventSlots < slots
    ensures TxRun(IDLE, Overflow(f, eventSlots), slots, eventSlots).lost == 1
  {
    hide TxRun;
    var filled := Repeat(Xmit(f), eventSlots + 1);
    CompletesAll(f, eventSlots, eventSlots + 1, slots, eventSlots);
    RepeatMore(filled, Complete(0), eventSlots + 1);
    RunLast(IDLE, filled + Repeat(Complete(0), eventSlots), Complete(0), slots, eventSlots);
  }

  lemma {:induction false} LostGrows(t: Tx, steps: seq<Step>, n: nat, slots: nat, eventSlots: nat)
    requires n <= |steps|
    ensures TxRun(t, steps[..n], slots, eventSlots).lost <= TxRun(t, steps, slots, eventSlots).lost
  {
    if n < |steps| {
      LostGrows(t, steps[..|steps|-1], n, slots, eventSlots);
      assert steps[..|steps|-1][..n] == steps[..n];
    } else {
      assert steps[..n] == steps;
    }
  }

  /** Only its last step loses the event. */
  lemma OverflowLosesLast(f: CanFrame, slots: nat, eventSlots: nat, n: nat)
    requires f.Valid() && eventSlots < slots && n <= |Overflow(f, eventSlots)|
    ensures n < |Overflow(f, eventSlots)| ==>
              TxRun(IDLE, Overflow(f, eventSlots)[..n], slots, eventSlots).lost == 0
    ensures n == |Overflow(f, eventSlots)| ==> Overflow(f, eventSlots)[..n] == Overflow(f, eventSlots)
  {
    hide TxRun;
    var filled := Repeat(Xmit(f), eventSlots + 1);
    var all := filled + Repeat(Complete(0), eventSlots);
    RepeatMore(filled, Complete(0), eventSlots + 1);
    if n <= |all| {
      CompletesAll(f, eventSlots, eventSlots + 1, slots, eventSlots);
      LostGrows(IDLE, all, n, slots, eventSlots);
      assert Overflow(f, eventSlots)[..n] == all[..n];
    }
  }

  /** No run loses an event exactly when the event FIFO is no smaller than the TX FIFO. */
  lemma LossExactly(slots: nat, eventSlots: nat)
    ensures (forall steps: seq<Step> :: TxRun(IDLE, steps, slots, eventSlots).lost == 0) <==> slots <= eventSlots
  {
    hide TxRun;
    if slots <= eventSlots {
      forall steps: seq<Step>
        ensures TxRun(IDLE, steps, slots, eventSlots).lost == 0
      {
        RunKeepsOrder(steps, slots, eventSlots);
      }
    } else {
      OverflowLoses(AnyFrame(), slots, eventSlots);
    }
  }

  function AnyFrame(): (f: CanFrame)
    ensures f.Valid()
  {
    CanFrame(0, 0, 0, seq(8, _ => 0), false)
  }

  // ----- the class runs as the steps say

  /** Any interleaving of transmissions, completions and interrupts, up to the first
      event that is lost: after the steps run the controller holds exactly the frames
      that these steps leave waiting, completed and echoed. With an event FIFO no
      smaller than the TX FIFO that is after all of them. */
  method Run(can: MCan, steps: seq<Step>) returns (n: nat)
    requires can.Valid() && can.Conserved()
    modifies can, can.echo
    ensures n <= |steps| && (n < |steps| ==> can.lost == 1)
    ensures can.View() == TxRun(old(can.View()), steps[..n], can.slots, can.eventSlots)
    ensures can.lost == 0 ==> n == |steps| && can.Valid() && can.Conserved()
    ensures can.slots <= can.eventSlots ==> can.lost == 0
  {
    hide Tracked, Kept, TxRun, TxStep, Frames, MCan.View;
    n := 0;
    ghost var start := can.View();
    RunNothing(start, can.slots, can.eventSlots);
    assert steps[..0] == [];
    while n < |steps|
      invariant n <= |steps| && can.Valid() && can.Conserved()
      invariant can.View() == TxRun(start, steps[..n], can.slots, can.eventSlots)
    {
      RunLast(start, steps[..n], steps[n], can.slots, can.eventSlots);
      assert steps[..n + 1] == steps[..n] + [steps[n]];
      RunStep(can, steps[n]);
      n := n + 1;
      if can.lost > 0 { return; }
    }
    assert steps[..n] == steps;
  }

  method RunStep(can: MCan, step: Step)
    requires can.Valid() && can.Conserved()
    modifies can, can.echo
    ensures can.View() == TxStep(old(can.View()), step, can.slots, can.eventSlots)
    ensures can.lost <= 1 && (can.lost == 0 ==> can.Valid() && can.Conserved())
    ensures can.slots <= can.eventSlots ==> can.lost == 0
  {
    hide Tracked, Kept, Frames;
    match step
    case Xmit(f) =>
      if !can.stopped { RunXmit(can, f); }
    case Complete(rest) =>
      if can.pending != [] { RunComplete(can, rest); }
    case Interrupt => can.Isr();
  }

  method RunXmit(can: MCan, f: CanFrame)
    requires can.Valid() && can.Conserved() && !can.stopped
    modifies can, can.echo
    ensures can.Valid() && can.Conserved() && can.completed == old(can.completed) && can.echoed == old(can.echoed)
    ensures Frames(can.pending) == Frames(old(can.pending)) + if f.Valid() then [f] else []
  {
    hide Tracked, Kept, Frames;
    Sending(can.sent, can.echoed, can.window, can.txPackets, can.txBytes, f);
    TrackedFrames(can.echo[..], can.oldest, can.events, can.completed, can.pending, can.window);
    var r := can.StartXmit(f);
    TrackedFrames(can.echo[..], can.oldest, can.events, can.completed, can.pending, can.window);
    Cancel(can.completed, Frames(old(can.pending)), Frames(can.pending), if f.Valid() then [f] else []);
  }

  method RunComplete(can: MCan, rest: bv32)
    requires can.Valid() && can.Conserved() && can.pending != []
    modifies can, can.echo
    ensures can.echoed == old(can.echoed) && Frames(can.pending) == Frames(old(can.pending))[1..]
    ensures can.completed == old(can.completed)
                             + if |old(can.completed)| < can.eventSlots then [Frames(old(can.pending))[0]] else []
    ensures if |old(can.completed)| < can.eventSlots then can.Valid() && can.Conserved() else can.lost == 1
  {
    hide Tracked, Kept;
    can.HwComplete(EventWord(can.pending[0].t1, rest));
  }

  lemma TrackedFrames(echo: seq<Option<CanFrame>>, first: nat, events: seq<bv32>, completed: seq<CanFrame>,
                      pending: seq<Slot>, win: seq<CanFrame>)
    requires Tracked(echo, first, events, completed, pending, win)
    ensures win == completed + Frames(pending)
  {
  }

  lemma Cancel(a: seq<CanFrame>, x: seq<CanFrame>, y: seq<CanFrame>, z: seq<CanFrame>)
    requires a + y == a + x + z
    ensures y == x + z
  {
    assert y == (a + y)[|a|..] && x + z == (a + x + z)[|a|..];
  }

  lemma Sending(sent: seq<CanFrame>, echoed: seq<CanFrame>, window: seq<CanFrame>, txPackets: nat, txBytes: nat,
                f: CanFrame)
    requires Kept(sent, echoed, window, txPackets, txBytes)
    ensures Kept(sent + [f], echoed, window + [f], txPackets, txBytes)
    ensures Kept(sent + [], echoed, window + [], txPackets, txBytes)
  {
    assert (echoed + window) + [f] == echoed + (window + [f]);
    assert sent + [] == sent && window + [] == window;
  }

  /** With nothing waiting, one interrupt echoes everything and reopens the queue. */
  method Drain(can: MCan)
    requires can.Valid() && can.Conserved() && can.pending == []
    modifies can, can.echo
    ensures can.Valid() && can.echoed == can.sent && !can.stopped
  {
    hide Tracked;
    can.Isr();
    assert can.window == [];
  }

  /** The size condition is necessary: on a smaller event FIFO these steps send a frame
      whose event is dropped, so its slot is never released. */
  method EventDropped(slots: nat, eventSlots: nat, f: CanFrame) returns (can: MCan, n: nat)
    requires eventSlots < slots <= 32 && f.Valid()
    ensures can.slots == slots && can.eventSlots == eventSlots && n == |Overflow(f, eventSlots)|
    ensures can.View() == TxRun(IDLE, Overflow(f, eventSlots), slots, eventSlots) && can.lost == 1
  {
    hide TxRun, Overflow, Tracked, Kept;
    can := new MCan(slots, eventSlots);
    n := Run(can, Overflow(f, eventSlots));
    OverflowLoses(f, slots, eventSlots);
    OverflowLosesLast(f, slots, eventSlots, n);
  }
}
