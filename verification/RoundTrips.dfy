/**
 * Progress across a whole round trip: the frame at the head of a window, the ACK it causes and the turn in which that
 * ACK is read, whatever happens to all other frames in between.
 */
module RoundTrips {
  import opened Common
  import opened SeqNum
  import opened Frames
  import opened HostModel
  import opened Messages
  import opened SenderPasses
  import opened SendingTurn
  import opened Network
  import opened Invariant
  import opened Preservation
  import opened ReceiveStep
  import opened Delivery
  import opened Progress
  import Flow

  // ---------- how far a sender has been acknowledged ----------

  /**
   * Frames from s to d that have been acknowledged: the fragments of all messages taken up, less those still in the
   * buffer or the window. `sent` are the messages commanded so far.
   */
  ghost function Acknowledged(h: HostState, sent: seq<CString>, d: nat): int
    requires d < |h.send|
  {
    var waiting := |Pending(h.cmds, d)|;
    if waiting > |sent| then 0
    else Offset(sent, |sent| - waiting) - |Sel(h.buffered, h.id, d, false)| - |h.send[d].window|
  }

  /** It is the base of the flow, however the flow is looked at. */
  lemma BaseIs(cfg: Config, sys: System, s: nat, d: nat, fl: Flow.Flow, taken: seq<CString>, sent: seq<CString>)
    requires Sized(cfg, sys) && s < cfg.hosts && d < cfg.hosts && FlowAt(cfg, sys, s, d, fl, taken, sent)
    ensures |sys.hosts| == cfg.hosts && |sys.hosts[s].send| == cfg.hosts
    ensures fl.base == Acknowledged(sys.hosts[s], sent, d)
  {
    hide *;
    FlowSizes(cfg, sys, s, d);
    FlowParts(cfg, sys, s, d, fl, taken, sent);
    var h := sys.hosts[s];
    CarriesCounts(fl.gen, taken);
    OffsetPrefix(taken, Pending(h.cmds, d), |taken|);
    SenderCounts(cfg, fl, h.send[d], Sel(h.buffered, s, d, false), sys.hosts[d].recv[s], Channel(sys, s, d, false),
                 Channel(sys, d, s, true));
    AcknowledgedIs(h, taken, Pending(h.cmds, d), d);
  }

  lemma CarriesCounts(gen: seq<Frame>, taken: seq<CString>)
    requires CarriesAll(gen, taken)
    ensures |gen| == Offset(taken, |taken|)
  {
    hide Offset;
  }

  lemma SenderCounts(cfg: Config, fl: Flow.Flow, p: Sending, buf: seq<Frame>, r: Receiving, data: seq<Frame>,
                     acks: seq<Frame>)
    requires Flow.FlowOk(cfg, fl, p, buf, r, data, acks)
    ensures fl.base + |p.window| + |buf| == |fl.gen| && fl.next <= fl.base + cfg.window && fl.base <= fl.next
    ensures p.window != [] ==> fl.base < |fl.gen| && p.window[0].frame == fl.gen[fl.base]
    ensures forall i :: 0 <= i < |fl.gen| ==> fl.gen[i].seqNum == Wrap(i)
    ensures |fl.flight| == |data|
    ensures data != [] ==> fl.flight[0] < fl.top <= fl.base + cfg.window && fl.next <= fl.flight[0] + cfg.window
    ensures forall i :: 0 <= i < |acks| ==>
              |fl.acks| == |acks| && fl.base <= fl.acks[i] <= fl.next && acks[i].seqNum == Wrap(fl.acks[i] as int - 1)
  {
    hide Wrap;
    assert fl.next > 0 ==> Flow.HasReceived(fl.next, r.window, fl.next - 1);
  }

  lemma AcknowledgedIs(h: HostState, taken: seq<CString>, waiting: seq<CString>, d: nat)
    requires d < |h.send| && waiting == Pending(h.cmds, d) && Offset(taken + waiting, |taken|) == Offset(taken, |taken|)
    ensures Acknowledged(h, taken + waiting, d) ==
            Offset(taken, |taken|) - |Sel(h.buffered, h.id, d, false)| - |h.send[d].window|
  {
    hide Offset;
    hide Sel;
    hide Pending;
  }

  // ---------- it never goes back ----------

  /** Only turns and commands touch a sender's side. */
  lemma SendersAlone(cfg: Config, sys: System, e: Event, s: nat)
    requires Shaped(cfg, sys) && Enabled(cfg, sys, e) && s < |sys.hosts| && !e.Command? && !(e.TakeTurn? && e.host == s)
    ensures var h, r := sys.hosts[s], Apply(cfg, sys, e).hosts;
            s < |r| && r[s].id == h.id && r[s].send == h.send && r[s].buffered == h.buffered && r[s].cmds == h.cmds
  {
    hide FrameValid;
    hide Turn;
    hide Accept;
    hide Drain;
    hide AckFrame;
    hide Lines;
    hide Delivered;
    if e.Receive? {
      assert HostShaped(cfg, sys.hosts[e.host], e.host);
      assert sys.hosts[e.host].incoming[0] in sys.hosts[e.host].incoming;
    }
    if e.Forward? {
      assert sys.hosts[e.host].outgoing[0] in sys.hosts[e.host].outgoing;
    }
  }

  lemma CommandAlone(cfg: Config, sys: System, e: Event, s: nat)
    requires Shaped(cfg, sys) && Enabled(cfg, sys, e) && s < |sys.hosts| && e.Command?
    ensures var h, r := sys.hosts[s], Apply(cfg, sys, e).hosts;
            && s < |r| && r[s].id == h.id && r[s].send == h.send && r[s].buffered == h.buffered
            && r[s].cmds == if e.cmd.src == s then h.cmds + [e.cmd] else h.cmds
  {
    hide HostShaped;
  }

  /** A command lengthens what waits and what was commanded alike. */
  lemma CommandCounts(h: HostState, r: HostState, trace: seq<Event>, e: Event, s: nat, d: nat)
    requires e.Command? && d < |h.send| && r.id == h.id && r.send == h.send && r.buffered == h.buffered
    requires r.cmds == if e.cmd.src == s then h.cmds + [e.cmd] else h.cmds
    requires |Pending(h.cmds, d)| <= |Commanded(trace, s, d)|
    ensures Acknowledged(r, Commanded(trace + [e], s, d), d) == Acknowledged(h, Commanded(trace, s, d), d)
  {
    hide *;
    var sent := Commanded(trace, s, d);
    CommandedNew(trace, e.cmd, s, d);
    assert e == Command(e.cmd);
    if e.cmd.src == s {
      PendingSnoc(h.cmds, e.cmd, d);
    }
    var waiting := |Pending(h.cmds, d)|;
    if e.cmd.src == s && e.cmd.dst == d {
      OffsetPrefix(sent, [e.cmd.message], |sent| - waiting);
      AcknowledgedParts(h, sent, d);
      AcknowledgedParts(r, sent + [e.cmd.message], d);
    } else {
      AcknowledgedParts(h, sent, d);
      AcknowledgedParts(r, sent, d);
      assert sent + [] == sent;
      assert Pending(h.cmds, d) + [] == Pending(h.cmds, d);
    }
  }

  lemma AcknowledgedParts(h: HostState, sent: seq<CString>, d: nat)
    requires d < |h.send| && |Pending(h.cmds, d)| <= |sent|
    ensures Acknowledged(h, sent, d) ==
            Offset(sent, |sent| - |Pending(h.cmds, d)|) - |Sel(h.buffered, h.id, d, false)| - |h.send[d].window|
  {
    hide Offset;
    hide Sel;
    hide Pending;
  }

  lemma BaseAt(cfg: Config, states: seq<System>, trace: seq<Event>, k: nat, s: nat, d: nat)
    returns (fl: Flow.Flow, taken: seq<CString>)
    requires ValidConfig(cfg) && IsRun(cfg, states, trace) && k <= |trace| && s < cfg.hosts && d < cfg.hosts && s != d
    ensures |states| == |trace| + 1 && |states[k].hosts| == cfg.hosts && |states[k].hosts[s].send| == cfg.hosts
    ensures Sized(cfg, states[k]) && FlowAt(cfg, states[k], s, d, fl, taken, Commanded(trace[..k], s, d))
    ensures fl.base == Acknowledged(states[k].hosts[s], Commanded(trace[..k], s, d), d)
    ensures |Pending(states[k].hosts[s].cmds, d)| <= |Commanded(trace[..k], s, d)|
  {
    hide *;
    fl, taken := ViewAt(cfg, states, trace, k, s, d);
    BaseIs(cfg, states[k], s, d, fl, taken, Commanded(trace[..k], s, d));
    FlowParts(cfg, states[k], s, d, fl, taken, Commanded(trace[..k], s, d));
  }

  /** One event never takes an acknowledgement back. */
  lemma StepForward(cfg: Config, states: seq<System>, trace: seq<Event>, k: nat, s: nat, d: nat)
    requires ValidConfig(cfg) && IsRun(cfg, states, trace) && k < |trace| && |states| == |trace| + 1
    requires s < cfg.hosts && d < cfg.hosts && s != d
    ensures |states[k].hosts| == cfg.hosts && |states[k].hosts[s].send| == cfg.hosts
    ensures |states[k + 1].hosts| == cfg.hosts && |states[k + 1].hosts[s].send| == cfg.hosts
    ensures Acknowledged(states[k].hosts[s], Commanded(trace[..k], s, d), d) <=
            Acknowledged(states[k + 1].hosts[s], Commanded(trace[..k + 1], s, d), d)
  {
    hide *;
    RunStep(cfg, states, trace, k);
    var e := trace[k];
    assert trace[..k] + [e] == trace[..k + 1];
    var fl0, taken0 := BaseAt(cfg, states, trace, k, s, d);
    var fl1, taken1 := BaseAt(cfg, states, trace, k + 1, s, d);
    if e.Command? {
      CommandAlone(cfg, states[k], e, s);
      CommandCounts(states[k].hosts[s], states[k + 1].hosts[s], trace[..k], e, s, d);
    } else {
      CommandedSame(trace[..k], e, s, d);
      if e.TakeTurn? && e.host == s {
        var fl, taken, fl', taken' := TurnAchieves(cfg, states, trace, k, d);
        BaseIs(cfg, states[k], s, d, fl, taken, Commanded(trace[..k], s, d));
        BaseIs(cfg, states[k + 1], s, d, fl', taken', Commanded(trace[..k], s, d));
        var n := |Sel(states[k].hosts[s].incoming, d, s, true)|;
        if n > 0 {
          AckNotBefore(cfg, states[k], s, d, fl, taken, Commanded(trace[..k], s, d), n - 1);
        }
      } else {
        SendersAlone(cfg, states[k], e, s);
        SameCount(states[k].hosts[s], states[k + 1].hosts[s], Commanded(trace[..k], s, d), d);
      }
    }
  }

  lemma SameCount(h: HostState, r: HostState, sent: seq<CString>, d: nat)
    requires d < |h.send| && r.id == h.id && r.send == h.send && r.buffered == h.buffered && r.cmds == h.cmds
    ensures Acknowledged(r, sent, d) == Acknowledged(h, sent, d)
  {}

  lemma AckNotBefore(cfg: Config, sys: System, s: nat, d: nat, fl: Flow.Flow, taken: seq<CString>, sent: seq<CString>,
                     a: nat)
    requires Sized(cfg, sys) && s < cfg.hosts && d < cfg.hosts && FlowAt(cfg, sys, s, d, fl, taken, sent)
    requires a < |fl.acks|
    ensures fl.base <= fl.acks[a]
  {
    hide *;
    FlowSizes(cfg, sys, s, d);
    FlowParts(cfg, sys, s, d, fl, taken, sent);
    AcksInRange(cfg, fl, sys.hosts[s].send[d], Sel(sys.hosts[s].buffered, s, d, false), sys.hosts[d].recv[s],
                Channel(sys, s, d, false), Channel(sys, d, s, true), a);
  }

  lemma AcksInRange(cfg: Config, fl: Flow.Flow, p: Sending, buf: seq<Frame>, r: Receiving, data: seq<Frame>,
                    acks: seq<Frame>,
                    a: nat)
    requires Flow.FlowOk(cfg, fl, p, buf, r, data, acks) && a < |fl.acks|
    ensures fl.base <= fl.acks[a]
  {
    hide Wrap;
    hide Flow.SenderOk;
    hide Flow.ReceiverOk;
    hide Flow.FlightOk;
  }

  /** What a sender knows to be acknowledged only grows. */
  lemma {:induction false} NeverBack(cfg: Config, states: seq<System>, trace: seq<Event>, j: nat, k: nat, s: nat,
                                     d: nat)
    requires ValidConfig(cfg) && IsRun(cfg, states, trace) && j <= k <= |trace| && |states| == |trace| + 1
    requires s < cfg.hosts && d < cfg.hosts && s != d
    ensures |states[j].hosts| == |states[k].hosts| == cfg.hosts
    ensures |states[j].hosts[s].send| == |states[k].hosts[s].send| == cfg.hosts
    ensures Acknowledged(states[j].hosts[s], Commanded(trace[..j], s, d), d) <=
            Acknowledged(states[k].hosts[s], Commanded(trace[..k], s, d), d)
    decreases k - j
  {
    hide *;
    if j < k {
      NeverBack(cfg, states, trace, j, k - 1, s, d);
      StepForward(cfg, states, trace, k - 1, s, d);
    } else {
      var fl, taken := BaseAt(cfg, states, trace, j, s, d);
    }
  }

  // ---------- one round trip ----------

  /** The frame at the head of the window is frame `base`, in whatever view of the flow. */
  lemma HeadIsBase(cfg: Config, sys: System, s: nat, d: nat, fl: Flow.Flow, taken: seq<CString>, sent: seq<CString>)
    requires ValidConfig(cfg) && Sized(cfg, sys) && s < cfg.hosts && d < cfg.hosts
    requires FlowAt(cfg, sys, s, d, fl, taken, sent)
    requires |sys.hosts| == cfg.hosts && |sys.hosts[s].send| == cfg.hosts && sys.hosts[s].send[d].window != []
    requires fl.flight != [] && fl.flight[0] < |fl.gen| && fl.gen[fl.flight[0]] == sys.hosts[s].send[d].window[0].frame
    ensures fl.flight[0] == fl.base
  {
    hide *;
    ConfigBounds(cfg);
    FlowSizes(cfg, sys, s, d);
    FlowParts(cfg, sys, s, d, fl, taken, sent);
    SenderCounts(cfg, fl, sys.hosts[s].send[d], Sel(sys.hosts[s].buffered, s, d, false), sys.hosts[d].recv[s],
                 Channel(sys, s, d, false), Channel(sys, d, s, true));
    WrapInjective(fl.base, fl.flight[0]);
  }

  lemma ConfigBounds(cfg: Config)
    requires ValidConfig(cfg)
    ensures 1 <= cfg.window <= 127
  {}

  lemma {:induction false} SelHas(q: seq<Frame>, f: Frame, src: int, dst: int, ack: bool) returns (a: nat)
    requires f in q && Matches(f, src, dst, ack)
    ensures a < |Sel(q, src, dst, ack)| && Sel(q, src, dst, ack)[a] == f
  {
    hide Matches;
    if q[0] == f {
      a := 0;
    } else {
      var b := SelHas(q[1..], f, src, dst, ack);
      a := if Matches(q[0], src, dst, ack) then b + 1 else b;
    }
  }

  lemma MatchesIs(f: Frame, src: int, dst: int, ack: bool)
    requires FrameValid(f) && f.src == src && f.dst == dst && (f.isAck != 0) == ack
    ensures Matches(f, src, dst, ack)
  {
    hide FrameValid;
  }

  /** The ACK a receiver sends in reply carries the number of its last in-order frame. */
  lemma ReplyIs(cfg: Config, states: seq<System>, trace: seq<Event>, j: nat)
    requires ValidConfig(cfg) && IsRun(cfg, states, trace) && j < |trace| && |states| == |trace| + 1
    requires trace[j].Receive?
    requires var d := trace[j].host;
             d < |states[j].hosts| && states[j].hosts[d].incoming != [] && FrameValid(states[j].hosts[d].incoming[0])
    ensures var d, s := trace[j].host, states[j].hosts[trace[j].host].incoming[0].src;
            && d < |states[j + 1].hosts| && s < |states[j + 1].hosts[d].recv| && states[j + 1].hosts[d].outgoing != []
            && var out := states[j + 1].hosts[d].outgoing;
               var ack := out[|out| - 1];
               FrameValid(ack) && ack.src == states[j].hosts[d].id && ack.dst == s && ack.isAck == 1 &&
               ack.seqNum == states[j + 1].hosts[d].recv[s].lfr
  {
    hide *;
    ReceiveNow(cfg, states, trace, j);
    var d := trace[j].host;
    var ack := ReceiveValid(cfg, states[j].hosts[d]);
  }

  /** An ACK among a sender's incoming frames, as the flow sees it. */
  lemma AckSeen(cfg: Config, sys: System, s: nat, d: nat, fl: Flow.Flow, taken: seq<CString>, sent: seq<CString>,
                ack: Frame)
    returns (a: nat)
    requires Sized(cfg, sys) && s < cfg.hosts && d < cfg.hosts && FlowAt(cfg, sys, s, d, fl, taken, sent)
    requires |sys.hosts| == cfg.hosts && ack in sys.hosts[s].incoming && Matches(ack, d, s, true)
    ensures a < |Sel(sys.hosts[s].incoming, d, s, true)| <= |fl.acks|
    ensures fl.base <= fl.acks[a] <= fl.next <= fl.base + cfg.window && ack.seqNum == Wrap(fl.acks[a] as int - 1)
  {
    hide *;
    a := SelHas(sys.hosts[s].incoming, ack, d, s, true);
    FlowSizes(cfg, sys, s, d);
    FlowParts(cfg, sys, s, d, fl, taken, sent);
    SenderCounts(cfg, fl, sys.hosts[s].send[d], Sel(sys.hosts[s].buffered, s, d, false), sys.hosts[d].recv[s],
                 Channel(sys, s, d, false), Channel(sys, d, s, true));
    ChannelStarts(sys, d, s, true);
    AckLengths(cfg, fl, sys.hosts[s].send[d], Sel(sys.hosts[s].buffered, s, d, false), sys.hosts[d].recv[s],
               Channel(sys, s, d, false), Channel(sys, d, s, true));
    assert Channel(sys, d, s, true)[a] == ack;
  }

  lemma ChannelStarts(sys: System, a: nat, b: nat, ack: bool)
    requires a < |sys.hosts| && b < |sys.hosts| == |sys.ingress|
    ensures Sel(sys.hosts[b].incoming, a, b, ack) <= Channel(sys, a, b, ack)
  {
    hide Sel;
  }

  lemma AckLengths(cfg: Config, fl: Flow.Flow, p: Sending, buf: seq<Frame>, r: Receiving, data: seq<Frame>,
                   acks: seq<Frame>)
    requires Flow.FlowOk(cfg, fl, p, buf, r, data, acks)
    ensures |fl.acks| == |acks|
  {
    hide Wrap;
  }

  lemma LastInOrder(cfg: Config, sys: System, s: nat, d: nat, fl: Flow.Flow, taken: seq<CString>, sent: seq<CString>)
    requires Sized(cfg, sys) && s < cfg.hosts && d < cfg.hosts && FlowAt(cfg, sys, s, d, fl, taken, sent)
    ensures |sys.hosts| == cfg.hosts && |sys.hosts[d].recv| == cfg.hosts
    ensures sys.hosts[d].recv[s].lfr == Wrap(fl.next - 1)
    ensures fl.next <= fl.base + cfg.window
  {
    hide *;
    FlowSizes(cfg, sys, s, d);
    FlowParts(cfg, sys, s, d, fl, taken, sent);
    SenderCounts(cfg, fl, sys.hosts[s].send[d], Sel(sys.hosts[s].buffered, s, d, false), sys.hosts[d].recv[s],
                 Channel(sys, s, d, false), Channel(sys, d, s, true));
    FlowReceiver(cfg, fl, sys.hosts[s].send[d], Sel(sys.hosts[s].buffered, s, d, false), sys.hosts[d].recv[s],
                 Channel(sys, s, d, false), Channel(sys, d, s, true));
    LfrIs(cfg, fl, sys.hosts[d].recv[s]);
  }

  lemma LfrIs(cfg: Config, fl: Flow.Flow, r: Receiving)
    requires Flow.ReceiverOk(cfg, fl, r)
    ensures r.lfr == Wrap(fl.next - 1)
  {
    hide Wrap;
  }

  /**
   * If the oldest unacknowledged frame of a window reaches its receiver intact (event j), and the ACK sent in reply is
   * among the frames the sender finds in a later turn (event k), then the sender is further after that turn than it
   * was when the frame arrived: whatever else was lost, and whether or not the receiver had had the frame before.
   */
  lemma RoundTripAdvances(cfg: Config, states: seq<System>, trace: seq<Event>, j: nat, k: nat, s: nat, d: nat,
                          ack: Frame)
    requires ValidConfig(cfg) && IsRun(cfg, states, trace) && j < k < |trace| && |states| == |trace| + 1
    requires s < cfg.hosts && d < cfg.hosts && s != d && trace[j] == Receive(d) && trace[k] == TakeTurn(s)
    requires |states[j].hosts| == |states[j + 1].hosts| == |states[k].hosts| == cfg.hosts
    requires |states[j].hosts[s].send| == cfg.hosts && states[j].hosts[s].send[d].window != []
    requires states[j].hosts[d].incoming != [] && FrameValid(states[j].hosts[d].incoming[0])
    requires states[j].hosts[d].incoming[0].src == s
    requires states[j].hosts[d].incoming[0] == states[j].hosts[s].send[d].window[0].frame
    requires var out := states[j + 1].hosts[d].outgoing; out != [] && ack == out[|out| - 1]
    requires ack in states[k].hosts[s].incoming
    ensures |states[k + 1].hosts| == cfg.hosts && |states[k + 1].hosts[s].send| == cfg.hosts
    ensures Acknowledged(states[k + 1].hosts[s], Commanded(trace[..k + 1], s, d), d) >
            Acknowledged(states[j].hosts[s], Commanded(trace[..j], s, d), d)
  {
    hide *;
    ConfigBounds(cfg);
    var fl, taken, fl' := ArrivalAchieves(cfg, states, trace, j);
    BaseIs(cfg, states[j], s, d, fl, taken, Commanded(trace[..j], s, d));
    HeadIsBase(cfg, states[j], s, d, fl, taken, Commanded(trace[..j], s, d));
    LastInOrder(cfg, states[j + 1], s, d, fl', taken, Commanded(trace[..j], s, d));
    ReplyIs(cfg, states, trace, j);
    IdIs(cfg, states[j], d);
    MatchesIs(ack, d, s, true);
    var m := fl'.next;
    assert ack.seqNum == Wrap(m - 1) && fl.base < m <= fl.base + cfg.window;

    NeverBack(cfg, states, trace, j, k, s, d);
    var flk, takenk, flk', takenk' := TurnAchieves(cfg, states, trace, k, d);
    BaseIs(cfg, states[k], s, d, flk, takenk, Commanded(trace[..k], s, d));
    BaseIs(cfg, states[k + 1], s, d, flk', takenk', Commanded(trace[..k], s, d));
    CommandedSame(trace[..k], trace[k], s, d);
    assert trace[..k] + [trace[k]] == trace[..k + 1];
    var a := AckSeen(cfg, states[k], s, d, flk, takenk, Commanded(trace[..k], s, d), ack);
    assert flk.base >= fl.base;
    if flk.base == fl.base {
      WrapInjective(m - 1, flk.acks[a] as int - 1);
    } else {
      var n := |Sel(states[k].hosts[s].incoming, d, s, true)|;
      AckNotBefore(cfg, states[k], s, d, flk, takenk, Commanded(trace[..k], s, d), n - 1);
    }
  }

  lemma IdIs(cfg: Config, sys: System, d: nat)
    requires Sized(cfg, sys) && d < cfg.hosts
    ensures |sys.hosts| == cfg.hosts && sys.hosts[d].id == d
  {}
}
