/**
 * One direction of traffic between two hosts, seen with unbounded sequence numbers, and what every elementary step of
 * the protocol does to it.
 */
module Flow {
  import opened Common
  import opened SeqNum
  import opened HostModel

  /**
   * Unbounded view of a flow: every frame generated so far, the oldest unacknowledged frame, the first frame not yet
   * sent, the next frame the receiver wants, the indices of the data frames in flight and the (exclusive) upper ends
   * acknowledged by the ACKs in flight, both in the order they will arrive.
   */
  datatype Flow = Flow(gen: seq<Frame>, base: nat, top: nat, next: nat, flight: seq<nat>, acks: seq<nat>)

  ghost predicate SenderOk(cfg: Config, fl: Flow, p: Sending, buf: seq<Frame>) {
    && (forall i :: 0 <= i < |fl.gen| ==> fl.gen[i].seqNum == Wrap(i))
    && fl.base <= fl.top <= |fl.gen| && fl.top <= fl.base + cfg.window
    && |p.window| == fl.top - fl.base
    && (forall i :: 0 <= i < |p.window| ==> p.window[i].frame == fl.gen[fl.base + i])
    && p.currSeq == Wrap(|fl.gen|)
    && p.dupSeq == Wrap(fl.base - 1)
    && buf == fl.gen[fl.top..]
  }

  /** The receiver before it has advanced: its first slot may be filled. */
  ghost predicate Buffering(cfg: Config, fl: Flow, r: Receiving) {
    && fl.base <= fl.next <= fl.top <= |fl.gen|
    && r.lfr == Wrap(fl.next - 1)
    && |r.window| == cfg.window
    && (forall i :: 0 <= i < |r.window| && r.window[i].Some? ==>
          fl.next + i < fl.top && r.window[i].value == fl.gen[fl.next + i])
  }

  ghost predicate ReceiverOk(cfg: Config, fl: Flow, r: Receiving) {
    Buffering(cfg, fl, r) && (r.window != [] ==> r.window[0].None?)
  }

  /** Has frame n arrived? */
  predicate HasReceived(next: nat, window: seq<Option<Frame>>, n: nat) {
    n < next || (n - next < |window| && window[n - next].Some?)
  }

  /**
   * Data in flight: genuine frames, in an order in which nothing that arrives earlier, and nothing that has arrived
   * already, is a full window ahead of a frame still to come.
   */
  ghost predicate FlightOk(cfg: Config, fl: Flow, r: Receiving, data: seq<Frame>) {
    InFlight(cfg, fl.gen, fl.top, fl.next, fl.flight, r.window, data)
  }

  ghost predicate InFlight(cfg: Config, gen: seq<Frame>, top: nat, next: nat, flight: seq<nat>,
                           window: seq<Option<Frame>>, data: seq<Frame>) {
    Genuine(gen, top, flight, data) && Ordered(cfg, flight) && NotOvertaken(cfg, next, window, flight)
  }

  /** Every frame in flight is the one its index says, and has been sent. */
  ghost predicate Genuine(gen: seq<Frame>, top: nat, flight: seq<nat>, data: seq<Frame>) {
    && |data| == |flight|
    && forall j :: 0 <= j < |data| ==> flight[j] < top && flight[j] < |gen| && data[j] == gen[flight[j]]
  }

  ghost predicate Ordered(cfg: Config, flight: seq<nat>) {
    forall i, j :: 0 <= i < j < |flight| ==> flight[i] < flight[j] + cfg.window
  }

  ghost predicate NotOvertaken(cfg: Config, next: nat, window: seq<Option<Frame>>, flight: seq<nat>) {
    forall j, k: nat :: 0 <= j < |flight| && HasReceived(next, window, k) ==> k < flight[j] + cfg.window
  }

  /** ACKs in flight: cumulative, never decreasing, never beyond what was received. */
  ghost predicate AcksOk(fl: Flow, acks: seq<Frame>) {
    && |acks| == |fl.acks|
    && (forall j :: 0 <= j < |acks| ==>
          fl.base <= fl.acks[j] <= fl.next && acks[j].seqNum == Wrap(fl.acks[j] as int - 1))
    && (forall i, j :: 0 <= i < j < |acks| ==> fl.acks[i] <= fl.acks[j])
  }

  ghost predicate FlowOk(cfg: Config, fl: Flow, p: Sending, buf: seq<Frame>, r: Receiving,
                         data: seq<Frame>, acks: seq<Frame>) {
    SenderOk(cfg, fl, p, buf) && ReceiverOk(cfg, fl, r) && FlightOk(cfg, fl, r, data) && AcksOk(fl, acks)
  }

  // ---------- the sender ----------

  /** Consecutive numbers in a window of at most 127 are told apart, so a search finds the frame it is meant to find. */
  lemma {:induction false} FindInWindow(cfg: Config, gen: seq<Frame>, base: nat, window: seq<Slot>, n: nat)
    requires forall i :: 0 <= i < |gen| ==> gen[i].seqNum == Wrap(i)
    requires |window| <= 127 && base + |window| <= |gen|
    requires forall i :: 0 <= i < |window| ==> window[i].frame == gen[base + i]
    requires base <= n < base + |window|
    ensures FindSeq(window, Wrap(n)) == n - base
    decreases |window|
  {
    WrapInjective(base, n);
    if base < n {
      FindInWindow(cfg, gen, base + 1, window[1..], n);
    }
  }

  /** Timers and traffic do not matter to the sender's books. */
  lemma Retimed(cfg: Config, fl: Flow, p: Sending, buf: seq<Frame>, fl': Flow, p': Sending)
    requires SenderOk(cfg, fl, p, buf)
    requires fl'.gen == fl.gen && fl'.base == fl.base && fl'.top == fl.top
    requires p'.currSeq == p.currSeq && p'.dupSeq == p.dupSeq && |p'.window| == |p.window|
    requires forall i :: 0 <= i < |p.window| ==> p'.window[i].frame == p.window[i].frame
    ensures SenderOk(cfg, fl', p', buf)
  {
    hide Wrap;
  }

  lemma FlightAppend(cfg: Config, fl: Flow, r: Receiving, data: seq<Frame>, n: nat)
    requires FlightOk(cfg, fl, r, data) && Buffering(cfg, fl, r)
    requires fl.base <= n < fl.top <= fl.base + cfg.window
    ensures FlightOk(cfg, fl.(flight := fl.flight + [n]), r, data + [fl.gen[n]])
  {
    var fl', data' := fl.(flight := fl.flight + [n]), data + [fl.gen[n]];
    forall j | 0 <= j < |data'|
      ensures fl'.flight[j] < fl.top && data'[j] == fl.gen[fl'.flight[j]]
    {
    }
  }

  /** Data in flight does not depend on how far the sender has been acknowledged, nor on the ACKs. */
  lemma FlightSame(cfg: Config, fl: Flow, r: Receiving, data: seq<Frame>, fl': Flow)
    requires FlightOk(cfg, fl, r, data)
    requires fl'.gen == fl.gen && fl'.top == fl.top && fl'.next == fl.next && fl'.flight == fl.flight
    ensures FlightOk(cfg, fl', r, data)
  {
    hide InFlight;
  }

  /** The receiver's order does not depend on what it still has to print. */
  lemma MsgsIrrelevant(cfg: Config, fl: Flow, r: Receiving, data: seq<Frame>, m: seq<Frame>)
    requires ReceiverOk(cfg, fl, r) && FlightOk(cfg, fl, r, data)
    ensures ReceiverOk(cfg, fl, r.(msgs := m)) && FlightOk(cfg, fl, r.(msgs := m), data)
  {
    hide Wrap;
    hide HasReceived;
  }

  lemma SenderFacts(cfg: Config, fl: Flow, p: Sending, buf: seq<Frame>)
    requires SenderOk(cfg, fl, p, buf)
    ensures forall i :: 0 <= i < |fl.gen| ==> fl.gen[i].seqNum == Wrap(i)
    ensures fl.top <= fl.base + cfg.window && fl.top <= |fl.gen|
  {}

  lemma ReceiverSame(cfg: Config, fl: Flow, r: Receiving, fl': Flow)
    requires ReceiverOk(cfg, fl, r)
    requires fl'.gen == fl.gen && fl'.top == fl.top && fl'.next == fl.next && fl'.base <= fl'.next
    ensures ReceiverOk(cfg, fl', r)
  {
    hide Wrap;
  }

  lemma RemovedAt<T>(s: seq<T>, j: nat, i: nat)
    requires j < |s| && i < |s| - 1
    ensures RemoveAt(s, j)[i] == s[if i < j then i else i + 1]
  {}

  lemma GenuineRemove(gen: seq<Frame>, top: nat, flight: seq<nat>, data: seq<Frame>, j: nat)
    requires Genuine(gen, top, flight, data) && j < |data|
    ensures Genuine(gen, top, RemoveAt<nat>(flight, j), RemoveAt(data, j))
  {
    hide RemoveAt;
    var flight' := RemoveAt<nat>(flight, j);
    var data' := RemoveAt(data, j);
    forall i | 0 <= i < |data'|
      ensures flight'[i] < top && flight'[i] < |gen| && data'[i] == gen[flight'[i]]
    {
      GenuineAt(gen, top, flight, data, j, i);
    }
  }

  lemma GenuineAt(gen: seq<Frame>, top: nat, flight: seq<nat>, data: seq<Frame>, j: nat, i: nat)
    requires Genuine(gen, top, flight, data) && j < |data| && i < |data| - 1
    ensures var n := RemoveAt<nat>(flight, j)[i];
            n < top && n < |gen| && RemoveAt(data, j)[i] == gen[n]
  {
    hide RemoveAt;
    RemovedAt<nat>(flight, j, i);
    RemovedAt(data, j, i);
  }

  lemma OrderedRemove(cfg: Config, flight: seq<nat>, j: nat)
    requires Ordered(cfg, flight) && j < |flight|
    ensures Ordered(cfg, RemoveAt<nat>(flight, j))
  {
    hide RemoveAt;
    var flight' := RemoveAt<nat>(flight, j);
    forall i, l | 0 <= i < l < |flight'| ensures flight'[i] < flight'[l] + cfg.window {
      RemovedAt<nat>(flight, j, i);
      RemovedAt<nat>(flight, j, l);
    }
  }

  lemma NotOvertakenRemove(cfg: Config, next: nat, window: seq<Option<Frame>>, flight: seq<nat>, j: nat)
    requires NotOvertaken(cfg, next, window, flight) && j < |flight|
    ensures NotOvertaken(cfg, next, window, RemoveAt<nat>(flight, j))
  {
    hide HasReceived;
    hide RemoveAt;
    var flight' := RemoveAt<nat>(flight, j);
    forall i, n: nat | 0 <= i < |flight'| && HasReceived(next, window, n) ensures n < flight'[i] + cfg.window {
      RemovedAt<nat>(flight, j, i);
    }
  }

  /** Losing or corrupting any frame in flight. */
  lemma FlightRemove(cfg: Config, fl: Flow, r: Receiving, data: seq<Frame>, j: nat)
    requires FlightOk(cfg, fl, r, data) && j < |data|
    ensures |fl.flight| == |data| && FlightOk(cfg, fl.(flight := RemoveAt<nat>(fl.flight, j)), r, RemoveAt(data, j))
  {
    hide Ordered, NotOvertaken, HasReceived, RemoveAt;
    GenuineRemove(fl.gen, fl.top, fl.flight, data, j);
    OrderedRemove(cfg, fl.flight, j);
    NotOvertakenRemove(cfg, fl.next, r.window, fl.flight, j);
    hide Genuine;
  }

  lemma AcksRemove(fl: Flow, acks: seq<Frame>, j: nat)
    requires AcksOk(fl, acks) && j < |acks|
    ensures |fl.acks| == |acks| && AcksOk(fl.(acks := RemoveAt<nat>(fl.acks, j)), RemoveAt(acks, j))
  {
    hide Wrap;
    hide RemoveAt;
    var acks' := RemoveAt(acks, j);
    var ends' := RemoveAt<nat>(fl.acks, j);
    forall i | 0 <= i < |acks'|
      ensures fl.base <= ends'[i] <= fl.next && acks'[i].seqNum == Wrap(ends'[i] as int - 1)
    {
      RemovedAt(acks, j, i);
      RemovedAt<nat>(fl.acks, j, i);
    }
    forall i, l | 0 <= i < l < |acks'| ensures ends'[i] <= ends'[l] {
      RemovedAt<nat>(fl.acks, j, i);
      RemovedAt<nat>(fl.acks, j, l);
    }
  }

  /** Taking the oldest ACK: the rest acknowledge at least as much. */
  lemma AckHead(fl: Flow, ack: Frame, acks: seq<Frame>)
    requires AcksOk(fl, [ack] + acks)
    ensures fl.acks != [] && fl.base <= fl.acks[0] <= fl.next && ack.seqNum == Wrap(fl.acks[0] as int - 1)
    ensures AcksOk(fl.(base := fl.acks[0], acks := fl.acks[1..]), acks)
  {
    hide Wrap;
    var all := [ack] + acks;
    assert all[0] == ack;
    var fl' := fl.(base := fl.acks[0], acks := fl.acks[1..]);
    forall j | 0 <= j < |acks|
      ensures fl'.base <= fl'.acks[j] <= fl'.next && acks[j].seqNum == Wrap(fl'.acks[j] as int - 1)
    {
      assert acks[j] == all[j + 1] && fl'.acks[j] == fl.acks[j + 1];
      assert fl.acks[0] <= fl.acks[j + 1];
    }
    forall i, j | 0 <= i < j < |acks| ensures fl'.acks[i] <= fl'.acks[j] {
      assert fl.acks[i + 1] <= fl.acks[j + 1];
    }
  }

  /** Where an arriving ACK stands: its distance from the newest cumulative ACK is what seq_num_diff says. */
  lemma AckDistance(cfg: Config, fl: Flow, p: Sending, buf: seq<Frame>, m: nat)
    requires ValidConfig(cfg) && SenderOk(cfg, fl, p, buf) && fl.base <= m <= fl.top
    ensures SeqNumDiff(p.dupSeq, Wrap(m - 1)) == m - fl.base
    ensures p.dupSeq == Wrap(m - 1) <==> m == fl.base
    ensures p.window != [] ==> SeqNumDiff(p.window[0].frame.seqNum, Wrap(m - 1)) == m - 1 - fl.base
  {
    hide Wrap;
    hide SeqNumDiff;
    DiffExact(fl.base - 1, m - 1);
    WrapInjective(fl.base - 1, m - 1);
    DiffExact(fl.base, m - 1);
  }

  /**
   * Bookkeeping of an ACK: `dupSeq` stays the newest cumulative ACK, and three duplicates mean the oldest frame is
   * missing.
   */
  lemma CountAckOk(cfg: Config, fl: Flow, p: Sending, buf: seq<Frame>, m: nat)
    requires ValidConfig(cfg) && SenderOk(cfg, fl, p, buf) && fl.base <= m <= fl.top
    ensures var p' := CountAck(p, Wrap(m - 1));
            p'.window == p.window && p'.currSeq == p.currSeq && p'.dupSeq == Wrap(m - 1) &&
            (EntersFastRecovery(p'.cc) ==> m == fl.base)
  {
    AckDistance(cfg, fl, p, buf, m);
  }

  lemma SlideWindow(cfg: Config, fl: Flow, q: Sending, m: nat)
    requires ValidConfig(cfg) && fl.base <= m <= fl.top <= |fl.gen| && fl.top <= fl.base + cfg.window
    requires forall i :: 0 <= i < |fl.gen| ==> fl.gen[i].seqNum == Wrap(i)
    requires |q.window| == fl.top - fl.base
    requires forall i :: 0 <= i < |q.window| ==> q.window[i].frame == fl.gen[fl.base + i]
    ensures Slide(q, Wrap(m - 1)) == q.(window := q.window[m - fl.base..])
  {
    hide Wrap;
    hide SeqNumDiff;
    if q.window != [] {
      DiffExact(fl.base, m - 1);
      if m > fl.base {
        FindInWindow(cfg, fl.gen, fl.base, q.window, m - 1);
      }
    }
  }

  /** An accepted ACK dequeues exactly the frames below its number. */
  lemma SlideOk(cfg: Config, fl: Flow, p: Sending, buf: seq<Frame>, q: Sending, m: nat)
    requires ValidConfig(cfg) && SenderOk(cfg, fl, p, buf) && fl.base <= m <= fl.top
    requires q.dupSeq == Wrap(m - 1) && q.currSeq == p.currSeq && |q.window| == |p.window|
    requires forall i :: 0 <= i < |p.window| ==> q.window[i].frame == p.window[i].frame
    ensures m - fl.base <= |q.window| && Slide(q, Wrap(m - 1)) == q.(window := q.window[m - fl.base..])
    ensures SenderOk(cfg, fl.(base := m), Slide(q, Wrap(m - 1)), buf)
  {
    hide *;
    SenderFacts(cfg, fl, p, buf);
    WindowFacts(cfg, fl, p, buf, q);
    SlideWindow(cfg, fl, q, m);
    SuffixOk(cfg, fl, p, buf, q, Slide(q, Wrap(m - 1)), m);
  }

  lemma WindowFacts(cfg: Config, fl: Flow, p: Sending, buf: seq<Frame>, q: Sending)
    requires SenderOk(cfg, fl, p, buf) && |q.window| == |p.window|
    requires forall i :: 0 <= i < |p.window| ==> q.window[i].frame == p.window[i].frame
    ensures |q.window| == fl.top - fl.base
    ensures forall i :: 0 <= i < |q.window| ==> q.window[i].frame == fl.gen[fl.base + i]
  {
    hide Wrap;
  }

  /** What is left of the window are the frames from number m on. */
  lemma SuffixOk(cfg: Config, fl: Flow, p: Sending, buf: seq<Frame>, q: Sending, r: Sending, m: nat)
    requires SenderOk(cfg, fl, p, buf) && fl.base <= m <= fl.top && |q.window| == fl.top - fl.base
    requires forall i :: 0 <= i < |q.window| ==> q.window[i].frame == fl.gen[fl.base + i]
    requires q.dupSeq == Wrap(m - 1) && q.currSeq == p.currSeq && r == q.(window := q.window[m - fl.base..])
    ensures SenderOk(cfg, fl.(base := m), r, buf)
  {
    hide Wrap;
    forall i | 0 <= i < |r.window| ensures r.window[i].frame == fl.gen[m + i] {
      assert r.window[i] == q.window[m - fl.base + i];
    }
  }

  /** Nothing but the sender's own view depends on what has been generated but not yet sent. */
  lemma GenGrows(cfg: Config, fl: Flow, r: Receiving, data: seq<Frame>, acks: seq<Frame>, f: Frame)
    requires ReceiverOk(cfg, fl, r) && FlightOk(cfg, fl, r, data) && AcksOk(fl, acks)
    ensures var fl' := fl.(gen := fl.gen + [f]);
            ReceiverOk(cfg, fl', r) && FlightOk(cfg, fl', r, data) && AcksOk(fl', acks)
  {
    hide Wrap;
  }

  /** A newly generated frame joins the end of the stream. */
  lemma GenerateOk(cfg: Config, fl: Flow, p: Sending, buf: seq<Frame>, f: Frame)
    requires SenderOk(cfg, fl, p, buf) && f.seqNum == p.currSeq
    ensures SenderOk(cfg, fl.(gen := fl.gen + [f]), p.(currSeq := Wrap(p.currSeq + 1)), buf + [f])
  {
    WrapShift(|fl.gen|, 1);
    hide Wrap;
    assert (fl.gen + [f])[fl.top..] == buf + [f];
  }

  /** The oldest buffered frame enters the window. */
  lemma EnterWindow(cfg: Config, fl: Flow, p: Sending, buf: seq<Frame>, timeout: Option<int>)
    requires SenderOk(cfg, fl, p, buf) && buf != [] && |p.window| < cfg.window
    ensures SenderOk(cfg, fl.(top := fl.top + 1), p.(window := p.window + [Slot(buf[0], timeout)]), buf[1..])
  {
    hide Wrap;
    assert fl.gen[fl.top..][1..] == fl.gen[fl.top + 1..];
  }

  lemma FlowSplit(cfg: Config, fl: Flow, p: Sending, buf: seq<Frame>, r: Receiving, data: seq<Frame>, acks: seq<Frame>)
    ensures FlowOk(cfg, fl, p, buf, r, data, acks) <==>
            SenderOk(cfg, fl, p, buf) && ReceiverOk(cfg, fl, r) && FlightOk(cfg, fl, r, data) && AcksOk(fl, acks)
  {
    hide SenderOk, ReceiverOk, FlightOk, AcksOk;
  }

  /** The frame that will be sent next. */
  lemma NextToSend(cfg: Config, fl: Flow, p: Sending, buf: seq<Frame>)
    requires SenderOk(cfg, fl, p, buf) && buf != [] && |p.window| < cfg.window
    ensures fl.base <= fl.top < |fl.gen| && fl.top + 1 <= fl.base + cfg.window && buf[0] == fl.gen[fl.top]
  {
    hide Wrap;
  }

  /** One more frame counts as sent. */
  lemma TopGrows(cfg: Config, fl: Flow, r: Receiving, data: seq<Frame>)
    requires ReceiverOk(cfg, fl, r) && FlightOk(cfg, fl, r, data) && fl.top < |fl.gen|
    ensures var fl' := fl.(top := fl.top + 1);
            ReceiverOk(cfg, fl', r) && Buffering(cfg, fl', r) && FlightOk(cfg, fl', r, data)
  {
    hide Wrap;
    hide HasReceived;
  }

  lemma AcksSame(fl: Flow, acks: seq<Frame>, fl': Flow)
    requires AcksOk(fl, acks) && fl'.base == fl.base && fl'.next == fl.next && fl'.acks == fl.acks
    ensures AcksOk(fl', acks)
  {
    hide Wrap;
  }

  lemma NextBounds(cfg: Config, fl: Flow, r: Receiving)
    requires ReceiverOk(cfg, fl, r)
    ensures fl.base <= fl.next <= fl.top
  {
    hide Wrap;
  }

  /** The oldest buffered frame enters the window and the network. */
  lemma SendNewOk(cfg: Config, fl: Flow, p: Sending, buf: seq<Frame>, r: Receiving, data: seq<Frame>, acks: seq<Frame>,
                  timeout: Option<int>)
    requires FlowOk(cfg, fl, p, buf, r, data, acks)
    requires buf != [] && |p.window| < cfg.window
    ensures FlowOk(cfg, fl.(top := fl.top + 1, flight := fl.flight + [fl.top]),
                   p.(window := p.window + [Slot(buf[0], timeout)]), buf[1..], r, data + [buf[0]], acks)
  {
    hide *;
    FlowSplit(cfg, fl, p, buf, r, data, acks);
    NextToSend(cfg, fl, p, buf);
    EnterWindow(cfg, fl, p, buf, timeout);
    TopGrows(cfg, fl, r, data);
    NextBounds(cfg, fl, r);
    var fl1, q := fl.(top := fl.top + 1), p.(window := p.window + [Slot(buf[0], timeout)]);
    var fl2 := fl1.(flight := fl.flight + [fl.top]);
    FlightAppend(cfg, fl1, r, data, fl.top);
    ReceiverSame(cfg, fl1, r, fl2);
    AcksSame(fl, acks, fl2);
    Retimed(cfg, fl1, q, buf[1..], fl2, q);
    FlowSplit(cfg, fl2, q, buf[1..], r, data + [buf[0]], acks);
  }

  // ---------- the receiver ----------

  /**
   * An arriving data frame lies less than a window behind and at most a window ahead of the last in-order frame, so
   * the 8-bit test answers the unbounded question.
   */
  lemma ArrivalDistance(cfg: Config, fl: Flow, r: Receiving, n: nat)
    requires ValidConfig(cfg) && Buffering(cfg, fl, r) && fl.top <= fl.base + cfg.window
    requires n < fl.top && fl.next <= n + cfg.window
    ensures SeqNumDiff(r.lfr, Wrap(n)) == n - (fl.next - 1)
    ensures 1 - cfg.window <= n - (fl.next - 1) <= cfg.window
    ensures InWindow(cfg, r.lfr, Wrap(n)) <==> n >= fl.next
  {
    DiffExact(fl.next - 1, n);
  }

  /** The receiver after its first slot has been delivered. */
  function Shifted(r: Receiving): Receiving
    requires r.window != [] && r.window[0].Some?
  {
    Receiving(r.window[1..] + [None], Wrap(r.lfr + 1), r.msgs + [r.window[0].value])
  }

  lemma AdvanceIs(r: Receiving, n: nat)
    ensures Advance(r, n) ==
            if n == 0 || r.window == [] || r.window[0].None? then r else Advance(Shifted(r), n - 1)
  {
    hide Wrap;
  }

  /** Delivering a frame moves the window on by one. */
  lemma ShiftedOk(cfg: Config, fl: Flow, r: Receiving)
    requires Buffering(cfg, fl, r) && r.window != [] && r.window[0].Some?
    ensures fl.next < fl.top <= |fl.gen| && r.window[0].value == fl.gen[fl.next]
    ensures Buffering(cfg, fl.(next := fl.next + 1), Shifted(r))
  {
    WrapShift(fl.next - 1, 1);
    hide Wrap;
    assert forall i :: 0 <= i < |r.window| - 1 ==> Shifted(r).window[i] == r.window[i + 1];
  }

  lemma ShiftedReceived(next: nat, r: Receiving, k: nat)
    requires r.window != [] && r.window[0].Some?
    ensures HasReceived(next + 1, Shifted(r).window, k) <==> HasReceived(next, r.window, k)
  {
    hide Wrap;
    if k > next && k - (next + 1) < |r.window| - 1 {
      assert Shifted(r).window[k - (next + 1)] == r.window[k - next];
    }
  }

  lemma ShiftedRest(r: Receiving, n: nat)
    requires r.window != [] && r.window[0].Some? && 0 < n <= |r.window|
    requires forall i :: n <= i < |r.window| ==> r.window[i].None?
    ensures |Shifted(r).window| == |r.window| && Shifted(r).msgs == r.msgs + [r.window[0].value]
    ensures forall i :: n - 1 <= i < |r.window| ==> Shifted(r).window[i].None?
  {
    hide Wrap;
  }

  lemma StoppedOk(cfg: Config, fl: Flow, r: Receiving, n: nat)
    requires Buffering(cfg, fl, r) && n <= |r.window| && cfg.window >= 1
    requires forall i :: n <= i < |r.window| ==> r.window[i].None?
    requires n == 0 || r.window[0].None?
    ensures fl.next <= fl.top <= |fl.gen| && ReceiverOk(cfg, fl, r)
  {
    hide Wrap;
  }

  lemma BufferingSize(cfg: Config, fl: Flow, r: Receiving)
    requires Buffering(cfg, fl, r)
    ensures |r.window| == cfg.window
  {
    hide Wrap;
  }

  /** Advancing delivers a run of the stream and stops at the first missing frame. */
  lemma {:induction false} AdvanceOk(cfg: Config, fl: Flow, r: Receiving, n: nat) returns (next': nat)
    requires Buffering(cfg, fl, r) && n <= |r.window| && cfg.window >= 1
    requires forall i :: n <= i < |r.window| ==> r.window[i].None?
    ensures fl.next <= next' <= fl.top <= |fl.gen|
    ensures var r' := Advance(r, n);
            && ReceiverOk(cfg, fl.(next := next'), r')
            && r'.msgs == r.msgs + fl.gen[fl.next..next']
            && (forall k: nat :: HasReceived(next', r'.window, k) <==> HasReceived(fl.next, r.window, k))
    decreases n
  {
    hide *;
    AdvanceIs(r, n);
    BufferingSize(cfg, fl, r);
    if n == 0 || r.window[0].None? {
      next' := fl.next;
      StoppedOk(cfg, fl, r, n);
    } else {
      ShiftedOk(cfg, fl, r);
      ShiftedRest(r, n);
      next' := AdvanceOk(cfg, fl.(next := fl.next + 1), Shifted(r), n - 1);
      assert fl.gen[fl.next..next'] == [fl.gen[fl.next]] + fl.gen[fl.next + 1..next'];
      forall k: nat ensures HasReceived(fl.next + 1, Shifted(r).window, k) <==> HasReceived(fl.next, r.window, k) {
        ShiftedReceived(fl.next, r, k);
      }
    }
  }

  /**
   * Handling an arriving frame n: what has been received grows by exactly n, and the cumulative ACK names the last
   * frame before the first one missing.
   */
  lemma AcceptOk(cfg: Config, fl: Flow, r: Receiving, n: nat) returns (next': nat)
    requires ValidConfig(cfg) && ReceiverOk(cfg, fl, r) && fl.top <= fl.base + cfg.window
    requires n < fl.top && fl.next <= n + cfg.window && fl.gen[n].seqNum == Wrap(n)
    ensures fl.next <= next' <= fl.top <= |fl.gen|
    ensures var r' := Accept(cfg, r, fl.gen[n]);
            && ReceiverOk(cfg, fl.(next := next'), r')
            && r'.msgs == r.msgs + fl.gen[fl.next..next']
            && (forall k: nat :: HasReceived(next', r'.window, k) <==> HasReceived(fl.next, r.window, k) || k == n)
            && !HasReceived(next', r'.window, next')
  {
    hide Wrap;
    hide SeqNumDiff;
    ArrivalDistance(cfg, fl, r, n);
    if n < fl.next {
      next' := fl.next;
    } else {
      var r1 := r.(window := r.window[n - fl.next := Some(fl.gen[n])]);
      next' := AdvanceOk(cfg, fl, r1, cfg.window);
    }
  }

  lemma ReceiveData(cfg: Config, fl: Flow, r: Receiving, data: seq<Frame>) returns (next': nat)
    requires ValidConfig(cfg) && ReceiverOk(cfg, fl, r) && fl.top <= fl.base + cfg.window
    requires FlightOk(cfg, fl, r, data) && data != []
    requires forall i :: 0 <= i < |fl.gen| ==> fl.gen[i].seqNum == Wrap(i)
    ensures fl.next <= next' <= fl.top <= |fl.gen|
    ensures var r' := Accept(cfg, r, data[0]);
            var fl' := fl.(next := next', flight := fl.flight[1..]);
            && ReceiverOk(cfg, fl', r') && FlightOk(cfg, fl', r', data[1..])
            && r'.msgs == r.msgs + fl.gen[fl.next..next']
            && HasReceived(next', r'.window, fl.flight[0])
  {
    hide Wrap;
    hide Accept;
    var n := fl.flight[0];
    assert fl.next > 0 ==> HasReceived(fl.next, r.window, fl.next - 1);
    next' := AcceptOk(cfg, fl, r, n);
  }

  /** The ACK sent in reply is at least as new as every ACK before it. */
  lemma AckAppend(fl: Flow, acks: seq<Frame>, next': nat, ack: Frame)
    requires AcksOk(fl, acks) && fl.base <= fl.next <= next' && ack.seqNum == Wrap(next' - 1)
    ensures AcksOk(fl.(next := next', acks := fl.acks + [next']), acks + [ack])
  {
    hide Wrap;
  }
}
