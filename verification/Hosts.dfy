/** A host of the simulator, its fields updated in place, proved against the functions of HostModel. */
module Hosts {
  import opened Common
  import opened SeqNum
  import opened Crc8
  import opened Frames
  import opened HostModel
  import opened CircularQueues
  import opened HostSteps
  import opened Network
  import SenderPasses
  import SendingTurn

  // ---------- checksums ----------

  /** frame_valid. */
  method CheckFrame(f: Frame) returns (valid: bool)
    ensures valid == FrameValid(f)
  {
    var remainder := ComputeCrc8(Encode(f));
    valid := remainder == NUL;
  }

  /** set_checksum. */
  method ComputeChecksum(f: Frame) returns (r: Frame)
    ensures r == SetChecksum(f)
  {
    r := f.(checksum := NUL);
    var checksum := ComputeCrc8(Encode(r));
    r := r.(checksum := checksum);
  }

  /** The acknowledgement written over a malloc'ed frame. */
  method BuildAck(src: uint8, dst: uint8, seqNum: uint8, raw: Frame) returns (ack: Frame)
    ensures ack == AckFrame(src, dst, seqNum, raw)
  {
    hide SetChecksum;
    ack := ComputeChecksum(raw.(src := src, dst := dst, seqNum := seqNum, isAck := 1));
  }

  /** The duplicate count of one destination: whether the ACK is the newest, and the congestion state after counting. */
  method CountDuplicate(dupSeq: uint8, cc: CongestionControl, seqNum: uint8)
    returns (newest: bool, counted: CongestionControl)
    ensures forall p: Sending :: p.dupSeq == dupSeq && p.cc == cc ==>
              CountAck(p, seqNum) == p.(dupSeq := if newest then seqNum else dupSeq, cc := counted)
  {
    hide SeqNumDiff;
    hide Wrap;
    newest := SeqNumDiff(dupSeq, seqNum) > 0;
    counted := cc;
    if newest {
      counted := counted.(dupAcks := 0);
    } else if dupSeq == seqNum {
      counted := counted.(dupAcks := Wrap(counted.dupAcks + 1));
      if counted.state == FastRecovery {
        counted := counted.(cwnd := counted.cwnd + 1.0);
      }
    }
  }

  /** The congestion state machine on one ACK; `enter` tells whether fast retransmit is due. */
  method NextCongestion(cc: CongestionControl) returns (next: CongestionControl, enter: bool)
    ensures next == OnAckCC(cc) && enter == EntersFastRecovery(cc)
    ensures cc.state == SlowStart ==>
              next == cc.(cwnd := cc.cwnd + 1.0, state := if cc.cwnd + 1.0 > cc.ssthresh then AIMD else SlowStart)
    ensures cc.state == AIMD && cc.dupAcks == 0 && cc.cwnd > 0.0 ==> next == cc.(cwnd := cc.cwnd + 1.0 / cc.cwnd)
    ensures cc.state == FastRecovery && cc.dupAcks == 0 ==> next == cc.(cwnd := cc.ssthresh, state := AIMD)
    ensures enter <==> cc.state == AIMD && cc.dupAcks == 3
    ensures enter ==>
              && next.ssthresh == (if cc.cwnd >= 4.0 then cc.cwnd / 2.0 else 2.0)
              && next == cc.(cwnd := next.ssthresh + 3.0, ssthresh := next.ssthresh, state := FastRecovery)
    ensures cc.state != SlowStart && cc.dupAcks != 0 && !enter ==> next == cc
  {
    next, enter := cc, false;
    if next.state == SlowStart {
      next := next.(cwnd := next.cwnd + 1.0);
      if next.cwnd > next.ssthresh {
        next := next.(state := AIMD);
      }
    } else if next.state == AIMD && next.dupAcks == 0 {
      next := next.(cwnd := next.cwnd + Reciprocal(next.cwnd));
    } else if next.state == FastRecovery && next.dupAcks == 0 {
      next := next.(state := AIMD);
      next := next.(cwnd := next.ssthresh);
    } else if next.dupAcks == 3 && next.state != FastRecovery {
      enter := true;
      next := next.(state := FastRecovery);
      next := next.(ssthresh := next.cwnd / 2.0);
      next := next.(ssthresh := MaxReal(next.ssthresh, 2.0));
      next := next.(cwnd := next.ssthresh + 3.0);
    }
  }

  class Host {
    const cfg: Config
    const id: uint8
    const sends: SendQueues
    const recvs: RecvQueues
    var active: bool
    var cmds: seq<Cmd>
    var incoming: seq<Frame>
    var buffered: seq<Frame>
    var outgoing: seq<Frame>
    var latestTimeout: int
    var currSeqNum: seq<uint8>
    var dupAcksSeqNum: seq<uint8>
    var cc: seq<CongestionControl>
    var recvLfr: seq<uint8>
    var recvMsgs: seq<seq<Frame>>
    var printed: seq<Line>
    var ticks: nat
    var mallocs: nat

    // ---------- abstraction ----------

    ghost function Footprint(): set<object> {
      {this, sends, sends.slots, recvs, recvs.slots}
    }

    /** Every table has one entry per host. */
    ghost predicate Shape()
      reads this, sends, sends.slots, recvs, recvs.slots
    {
      && ValidConfig(cfg) && id < cfg.hosts
      && sends.Valid() && recvs.Valid()
      && sends.peers == recvs.peers == cfg.hosts && sends.window == recvs.window == cfg.window
      && |currSeqNum| == |dupAcksSeqNum| == |cc| == |recvLfr| == |recvMsgs| == cfg.hosts
    }

    ghost function SendView(): (v: seq<Sending>)
      requires Shape()
      reads this, sends, sends.slots, recvs, recvs.slots
    {
      ZipSend(sends.Windows(), currSeqNum, dupAcksSeqNum, cc)
    }

    ghost function RecvView(): (v: seq<Receiving>)
      requires Shape()
      reads this, sends, sends.slots, recvs, recvs.slots
    {
      ZipRecv(recvs.Windows(), recvLfr, recvMsgs)
    }

    /** The host as a value of the model. */
    ghost function Snapshot(): (h: HostState)
      requires Shape()
      reads this, sends, sends.slots, recvs, recvs.slots
      ensures |h.send| == |h.recv| == cfg.hosts
      ensures forall d :: 0 <= d < cfg.hosts ==> |h.send[d].window| <= cfg.window && |h.recv[d].window| == cfg.window
      ensures h == h.(id := id, cmds := cmds, incoming := incoming, buffered := buffered, outgoing := outgoing,
                      latestTimeout := latestTimeout, printed := printed, active := active, ticks := ticks,
                      mallocs := mallocs)
    {
      HostState(id, cmds, incoming, buffered, outgoing, SendView(), RecvView(), latestTimeout, printed, active, ticks,
                mallocs)
    }

    ghost predicate Valid()
      reads this, sends, sends.slots, recvs, recvs.slots
    {
      Shape() && WellFormed(cfg, Snapshot())
    }

    /** init_host. */
    constructor (cfg: Config, id: uint8)
      requires ValidConfig(cfg) && id < cfg.hosts
      ensures this.cfg == cfg && this.id == id && fresh(Footprint())
      ensures Valid() && Snapshot() == Fresh(cfg, id)
    {
      this.cfg := cfg;
      this.id := id;
      sends := new SendQueues(cfg.window, cfg.hosts);
      recvs := new RecvQueues(cfg.window, cfg.hosts);
      active := false;
      cmds, incoming, buffered, outgoing, printed := [], [], [], [], [];
      latestTimeout := cfg.clock(id, 0);
      currSeqNum := seq(cfg.hosts, i => 0);
      dupAcksSeqNum := seq(cfg.hosts, i => 255);
      cc := seq(cfg.hosts, i => CongestionControl(1.0, cfg.window as real, 0, SlowStart));
      recvLfr := seq(cfg.hosts, i => 255);
      recvMsgs := seq(cfg.hosts, i => []);
      ticks, mallocs := 1, 0;
      new;
      assert SendView() == Fresh(cfg, id).send;
      assert RecvView() == Fresh(cfg, id).recv;
    }

    // ---------- elementary accesses ----------

    /** What the tables hold of the peers. */
    lemma Tables()
      requires Shape()
      ensures |currSeqNum| == |dupAcksSeqNum| == |cc| == |recvLfr| == |recvMsgs| == cfg.hosts
      ensures forall d :: 0 <= d < cfg.hosts ==>
                var p := Snapshot().send[d]; p.currSeq == currSeqNum[d] && p.dupSeq == dupAcksSeqNum[d] && p.cc == cc[d]
      ensures forall s :: 0 <= s < cfg.hosts ==>
                Snapshot().recv[s].lfr == recvLfr[s] && Snapshot().recv[s].msgs == recvMsgs[s]
      ensures 1 <= cfg.window <= 127 && 2 <= cfg.hosts <= 256 && id < cfg.hosts
    {
      hide RingOk;
    }

    lemma ValidIs()
      ensures Valid() <==> Shape() && WellFormed(cfg, Snapshot())
    {
      hide Shape;
      hide WellFormed;
    }

    /** gettimeofday. */
    method ReadClock() returns (now: int)
      requires Shape()
      modifies this`ticks
      ensures Shape() && Snapshot() == old(Snapshot()).(ticks := old(Snapshot()).ticks + 1)
      ensures now == cfg.clock(id, old(ticks))
    {
      hide RingOk;
      now := cfg.clock(id, ticks);
      ticks := ticks + 1;
    }

    method SetLatestTimeout(time: int)
      requires Shape()
      modifies this`latestTimeout
      ensures Shape() && Snapshot() == old(Snapshot()).(latestTimeout := time)
    {
      hide RingOk;
      latestTimeout := time;
    }

    /** ll_append_node on outgoing_frames_head. */
    method Emit(f: Frame)
      requires Shape()
      modifies this`outgoing
      ensures Shape() && Snapshot() == old(Snapshot()).(outgoing := old(outgoing) + [f])
    {
      hide RingOk;
      outgoing := outgoing + [f];
    }

    method RemoveIncoming(pos: nat)
      requires Shape() && pos < |incoming|
      modifies this`incoming
      ensures Shape() && Snapshot() == old(Snapshot()).(incoming := RemoveAt(old(incoming), pos))
    {
      hide RingOk;
      incoming := RemoveAt(incoming, pos);
    }

    method TakeCmd() returns (cmd: Cmd)
      requires Shape() && cmds != []
      modifies this`cmds
      ensures Shape() && cmd == old(cmds)[0] && Snapshot() == old(Snapshot()).(cmds := old(cmds)[1..])
    {
      hide RingOk;
      cmd := cmds[0];
      cmds := cmds[1..];
    }

    /** An uninitialised frame. */
    method Malloc() returns (raw: Frame)
      requires Shape()
      modifies this`mallocs
      ensures Shape() && raw == cfg.heap(id, old(mallocs))
      ensures Snapshot() == old(Snapshot()).(mallocs := old(mallocs) + 1)
    {
      hide RingOk;
      raw := cfg.heap(id, mallocs);
      mallocs := mallocs + 1;
    }

    /** ll_append_node on buffered_outframes_head. */
    method BufferFrame(f: Frame)
      requires Shape()
      modifies this`buffered
      ensures Shape() && Snapshot() == old(Snapshot()).(buffered := old(buffered) + [f])
    {
      hide RingOk;
      buffered := buffered + [f];
    }

    method TakeBuffered(pos: nat) returns (f: Frame)
      requires Shape() && pos < |buffered|
      modifies this`buffered
      ensures Shape() && f == old(buffered)[pos]
      ensures Snapshot() == old(Snapshot()).(buffered := RemoveAt(old(buffered), pos))
    {
      hide RingOk;
      f := buffered[pos];
      buffered := RemoveAt(buffered, pos);
    }

    method SetActive(value: bool)
      requires Shape()
      modifies this`active
      ensures Shape() && Snapshot() == old(Snapshot()).(active := value)
    {
      hide RingOk;
      active := value;
    }

    method PrintLine(line: Line)
      requires Shape()
      modifies this`printed
      ensures Shape() && Snapshot() == old(Snapshot()).(printed := old(printed) + [line])
    {
      hide RingOk;
      printed := printed + [line];
    }

    /** cq_get_length_send. */
    method Length(d: nat) returns (n: nat)
      requires Shape() && d < cfg.hosts
      ensures n == |Snapshot().send[d].window|
    {
      hide RingOk;
      n := sends.length[d];
    }

    /** cq_get_item_send. */
    method GetSlot(d: nat, i: nat) returns (s: Slot)
      requires Shape() && d < cfg.hosts && i < |Snapshot().send[d].window|
      ensures s == Snapshot().send[d].window[i]
    {
      hide RingOk;
      s := sends.GetItem(d, i);
    }

    method SetTimeout(d: nat, i: nat, timeout: Option<int>)
      requires Shape() && d < cfg.hosts && i < |Snapshot().send[d].window|
      modifies sends.slots
      ensures Shape()
      ensures var h, w := old(Snapshot()), old(Snapshot()).send[d].window;
              Snapshot() == SetSend(h, d, h.send[d].(window := w[i := w[i].(timeout := timeout)]))
    {
      hide RingOk;
      hide Ring;
      ghost var windows: seq<seq<Slot>> := sends.Windows();
      sends.SetTimeout(d, i, timeout);
      ZipSendUpdate(windows, currSeqNum, dupAcksSeqNum, cc, d, sends.Windows()[d], 0, 0, cc[d]);
    }

    /** cq_append_item_send. */
    method AppendSlot(d: nat, f: Frame, timeout: Option<int>)
      requires Shape() && d < cfg.hosts && |Snapshot().send[d].window| < cfg.window
      modifies sends`length, sends.slots
      ensures Shape()
      ensures var h := old(Snapshot());
              Snapshot() == SetSend(h, d, h.send[d].(window := h.send[d].window + [Slot(f, timeout)]))
    {
      hide RingOk;
      hide Ring;
      ghost var windows: seq<seq<Slot>> := sends.Windows();
      sends.Append(d, f, timeout);
      ZipSendUpdate(windows, currSeqNum, dupAcksSeqNum, cc, d, sends.Windows()[d], 0, 0, cc[d]);
    }

    /** cq_ndequeue_send. */
    method DequeueSlots(d: nat, n: nat)
      requires Shape() && d < cfg.hosts
      modifies sends`length, sends`start, sends.slots
      ensures Shape()
      ensures var h := old(Snapshot()); Snapshot() == SetSend(h, d, h.send[d].(window := Rest(h.send[d].window, n)))
    {
      hide RingOk;
      hide Ring;
      hide Rest;
      ghost var windows: seq<seq<Slot>> := sends.Windows();
      sends.NDequeue(d, n);
      ZipSendUpdate(windows, currSeqNum, dupAcksSeqNum, cc, d, sends.Windows()[d], 0, 0, cc[d]);
    }

    method SetDupSeq(d: nat, seqNum: uint8)
      requires Shape() && d < cfg.hosts
      modifies this`dupAcksSeqNum
      ensures Shape()
      ensures var h := old(Snapshot()); Snapshot() == SetSend(h, d, h.send[d].(dupSeq := seqNum))
    {
      hide RingOk;
      ZipSendUpdate(sends.Windows(), currSeqNum, dupAcksSeqNum, cc, d, [], 0, seqNum, cc[d]);
      dupAcksSeqNum := dupAcksSeqNum[d := seqNum];
    }

    method SetCC(d: nat, c: CongestionControl)
      requires Shape() && d < cfg.hosts
      modifies this`cc
      ensures Shape()
      ensures var h := old(Snapshot()); Snapshot() == SetSend(h, d, h.send[d].(cc := c))
    {
      hide RingOk;
      ZipSendUpdate(sends.Windows(), currSeqNum, dupAcksSeqNum, cc, d, [], 0, 0, c);
      cc := cc[d := c];
    }

    /** Take the next sequence number towards d. */
    method NextSeqNum(d: nat) returns (seqNum: uint8)
      requires Shape() && d < cfg.hosts
      modifies this`currSeqNum
      ensures Shape() && seqNum == old(Snapshot()).send[d].currSeq
      ensures var h := old(Snapshot()); Snapshot() == SetSend(h, d, h.send[d].(currSeq := Wrap(h.send[d].currSeq + 1)))
    {
      hide RingOk;
      seqNum := currSeqNum[d];
      ZipSendUpdate(sends.Windows(), currSeqNum, dupAcksSeqNum, cc, d, [], Wrap(seqNum + 1), 0, cc[d]);
      currSeqNum := currSeqNum[d := Wrap(seqNum + 1)];
    }

    /** cq_get_item_recv for the next frame wanted. */
    method FirstReceived(s: nat) returns (f: Option<Frame>)
      requires Shape() && s < cfg.hosts
      ensures f == Snapshot().recv[s].window[0]
    {
      hide RingOk;
      f := recvs.GetItem(s, 0);
    }

    /** cq_set_item_recv. */
    method StoreReceived(s: nat, i: nat, f: Frame)
      requires Shape() && s < cfg.hosts && i < cfg.window
      modifies recvs.slots
      ensures Shape()
      ensures var h := old(Snapshot());
              Snapshot() == h.(recv := h.recv[s := h.recv[s].(window := h.recv[s].window[i := Some(f)])])
    {
      hide RingOk;
      hide RecvRing;
      ghost var windows := recvs.Windows();
      recvs.SetItem(s, i, Some(f));
      ZipRecvUpdate(windows, recvLfr, recvMsgs, s, recvs.Windows()[s], 0, []);
    }

    /** cq_ndequeue_recv of one slot. */
    method DequeueReceived(s: nat)
      requires Shape() && s < cfg.hosts
      modifies recvs`start, recvs.slots
      ensures Shape()
      ensures var h := old(Snapshot());
              Snapshot() == h.(recv := h.recv[s := h.recv[s].(window := h.recv[s].window[1..] + [None])])
    {
      hide RingOk;
      hide RecvRing;
      ghost var windows := recvs.Windows();
      recvs.NDequeue(s, 1);
      assert Nones(1) == [None];
      ZipRecvUpdate(windows, recvLfr, recvMsgs, s, recvs.Windows()[s], 0, []);
    }

    method SetLfr(s: nat, seqNum: uint8)
      requires Shape() && s < cfg.hosts
      modifies this`recvLfr
      ensures Shape()
      ensures var h := old(Snapshot()); Snapshot() == h.(recv := h.recv[s := h.recv[s].(lfr := seqNum)])
    {
      hide RingOk;
      ZipRecvUpdate(recvs.Windows(), recvLfr, recvMsgs, s, [], seqNum, []);
      recvLfr := recvLfr[s := seqNum];
    }

    method SetMsgs(s: nat, msgs: seq<Frame>)
      requires Shape() && s < cfg.hosts
      modifies this`recvMsgs
      ensures Shape()
      ensures var h := old(Snapshot()); Snapshot() == h.(recv := h.recv[s := h.recv[s].(msgs := msgs)])
    {
      hide RingOk;
      ZipRecvUpdate(recvs.Windows(), recvLfr, recvMsgs, s, [], 0, msgs);
      recvMsgs := recvMsgs[s := msgs];
    }

    // ---------- retransmit_frame ----------

    /** The position of the first slot that carries `seqNum`, or the window's length. */
    method FindSlot(dst: nat, seqNum: uint8) returns (i: nat)
      requires Shape() && dst < cfg.hosts
      ensures i == FindSeq(Snapshot().send[dst].window, seqNum)
    {
      hide *;
      i := 0;
      var length := Length(dst);
      while i < length
        invariant 0 <= i <= length
        invariant forall j :: 0 <= j < i ==> Snapshot().send[dst].window[j].frame.seqNum != seqNum
      {
        var slot := GetSlot(dst, i);
        if slot.frame.seqNum == seqNum {
          break;
        }
        i := i + 1;
      }
      FindSeqIs(Snapshot().send[dst].window, seqNum, i);
    }

    method RetransmitFrame(dst: nat, seqNum: uint8)
      requires Shape() && dst < cfg.hosts
      modifies this, sends.slots
      ensures Shape() && Snapshot() == Retransmit(cfg, old(Snapshot()), dst, seqNum)
    {
      hide *;
      var curr := ReadClock();
      if curr < latestTimeout {
        curr := latestTimeout;
      }
      var length := Length(dst);
      var i := FindSlot(dst, seqNum);
      if i < length {
        var slot := GetSlot(dst, i);
        Emit(slot.frame);
      }
      SetLatestTimeout(curr + FRAME_GAP_USEC);
      RetransmitIs(cfg, old(Snapshot()), dst, seqNum, curr, i, Snapshot());
      if length > 0 {
        SetTimeout(dst, if i < length then i else length - 1, Some(curr + TIMEOUT_INTERVAL_USEC));
      }
    }

    // ---------- handle_incoming_acks ----------

    /** Duplicate-ACK bookkeeping. */
    method UpdateDupAcks(src: nat, seqNum: uint8)
      requires Shape() && src < cfg.hosts
      modifies this
      ensures Shape() && Snapshot() == SetSend(old(Snapshot()), src, CountAck(old(Snapshot()).send[src], seqNum))
    {
      hide *;
      Tables();
      ghost var h, p := Snapshot(), Snapshot().send[src];
      var newest, counted := CountDuplicate(dupAcksSeqNum[src], cc[src], seqNum);
      if newest {
        SetDupSeq(src, seqNum);
        SetSendTwice(h, src, p.(dupSeq := seqNum), p.(dupSeq := seqNum, cc := counted));
      }
      SetCC(src, counted);
    }

    /** The congestion state machine, once the ACK is counted; `enter` tells whether fast retransmit is due. */
    method UpdateCongestion(src: nat) returns (enter: bool)
      requires Shape() && src < cfg.hosts
      modifies this
      ensures var p := old(Snapshot()).send[src];
              Shape() && Snapshot() == SetSend(old(Snapshot()), src, p.(cc := OnAckCC(p.cc)))
              && enter == EntersFastRecovery(p.cc)
      ensures var c, c' := old(Snapshot()).send[src].cc, Snapshot().send[src].cc;
              && (c.state == SlowStart ==>
                    c' == c.(cwnd := c.cwnd + 1.0, state := if c.cwnd + 1.0 > c.ssthresh then AIMD else SlowStart))
              && (c.state == AIMD && c.dupAcks == 0 && c.cwnd > 0.0 ==> c' == c.(cwnd := c.cwnd + 1.0 / c.cwnd))
              && (c.state == FastRecovery && c.dupAcks == 0 ==> c' == c.(cwnd := c.ssthresh, state := AIMD))
              && (enter <==> c.state == AIMD && c.dupAcks == 3)
              && (enter ==>
                    && c'.ssthresh == (if c.cwnd >= 4.0 then c.cwnd / 2.0 else 2.0)
                    && c' == c.(cwnd := c'.ssthresh + 3.0, ssthresh := c'.ssthresh, state := FastRecovery))
              && (c.state != SlowStart && c.dupAcks != 0 && !enter ==> c' == c)
    {
      hide *;
      Tables();
      var next;
      next, enter := NextCongestion(cc[src]);
      SetSendIs(Snapshot(), src, Snapshot().send[src].(cc := next));
      SetCC(src, next);
    }

    /** Drop what the ACK covers. */
    method SlideWindow(src: nat, seqNum: uint8)
      requires Shape() && src < cfg.hosts
      modifies sends, sends.slots
      ensures Shape() && Snapshot() == SetSend(old(Snapshot()), src, Slide(old(Snapshot()).send[src], seqNum))
    {
      hide *;
      SlideIs(Snapshot().send[src], seqNum);
      SetSendTwice(Snapshot(), src, Snapshot().send[src], Snapshot().send[src]);
      var length := Length(src);
      if length == 0 {
        return;
      }
      var first := GetSlot(src, 0);
      if SeqNumDiff(first.frame.seqNum, seqNum) < 0 {
        return;
      }
      var j := FindSlot(src, seqNum);
      if j < length {
        DequeueSlots(src, j + 1);
      }
    }

    method HandleAck(src: nat, seqNum: uint8)
      requires Shape() && src < cfg.hosts
      modifies this, sends, sends.slots
      ensures Shape() && Snapshot() == OnAck(cfg, old(Snapshot()), src, seqNum)
    {
      hide *;
      ghost var h := Snapshot();
      ghost var p := CountAck(h.send[src], seqNum);
      SenderPasses.OnAckIs(cfg, h, src, seqNum, p);
      SetSendTwice(h, src, p, p.(cc := OnAckCC(p.cc)));
      UpdateDupAcks(src, seqNum);
      var enter := UpdateCongestion(src);
      if enter {
        RetransmitFrame(src, Wrap(seqNum + 1));
      }
      SlideWindow(src, seqNum);
    }

    method HandleIncomingAcks()
      requires Valid()
      modifies this, sends, sends.slots
      ensures Valid() && Snapshot() == AckPass(cfg, old(Snapshot()), 0)
    {
      hide *;
      ValidIs();
      var length := |incoming|;
      var i, pos := 0, 0;
      while i < length
        invariant 0 <= i <= length && 0 <= pos && pos + (length - i) == |incoming|
        invariant Shape() && WellFormed(cfg, Snapshot())
        invariant AckPass(cfg, Snapshot(), pos) == AckPass(cfg, old(Snapshot()), 0)
      {
        AckPassUnfold(cfg, Snapshot(), pos);
        var frame := incoming[pos];
        var valid := CheckFrame(frame);
        if !valid {
          RemoveIncoming(pos);
        } else if frame.isAck == 0 {
          pos := pos + 1;
        } else {
          RemoveIncoming(pos);
          HandleAck(frame.src, frame.seqNum);
        }
        i := i + 1;
      }
      SenderPasses.AckPassEnd(cfg, Snapshot(), pos);
      ValidIs();
    }

    // ---------- handle_input_cmds ----------

    /** The fragment of a command from byte `start` on, filled into the malloc'ed frame. */
    method BuildFragment(cmd: Cmd, start: nat, seqNum: uint8, raw: Frame) returns (f: Frame)
      requires start < |Stored(cmd.message)|
      ensures f == FragmentAt(cmd, start, seqNum, raw)
    {
      hide SetChecksum;
      hide StrNCpy;
      var text := Stored(cmd.message);
      var end := start + PAYLOAD_SIZE;
      if end > |text| {
        end := |text|;
      }
      var n := end - start;
      var copied := StrNCpy(text[start..], n);
      f := raw.(data := copied + raw.data[n..]);
      if end == |text| {
        f := f.(data := f.data[n - 1 := NUL]);
        assert f.data == copied[n - 1 := NUL] + raw.data[n..];
      }
      f := f.(length := n);
      f := f.(remaining := (|text| - end) % 65536);
      f := f.(src := cmd.src, dst := cmd.dst, isAck := 0);
      f := f.(seqNum := seqNum);
      f := ComputeChecksum(f);
    }

    method FragmentCommand(cmd: Cmd)
      requires Shape() && cmd.dst < cfg.hosts
      modifies this
      ensures Shape() && Snapshot() == Fragment(cfg, old(Snapshot()), cmd, 0)
    {
      hide *;
      var length := |Stored(cmd.message)|;
      var start := 0;
      while start < length
        invariant 0 <= start <= length && Shape()
        invariant Fragment(cfg, Snapshot(), cmd, start) == Fragment(cfg, old(Snapshot()), cmd, 0)
      {
        SendingTurn.FragmentUnfold(cfg, Snapshot(), cmd, start);
        SendingTurn.FragmentStepIs(cfg, Snapshot(), cmd, start);
        EndIs(cmd.message, start);
        var raw := Malloc();
        SetSendIs(Snapshot(), cmd.dst,
                  Snapshot().send[cmd.dst].(currSeq := Wrap(Snapshot().send[cmd.dst].currSeq + 1)));
        var seqNum := NextSeqNum(cmd.dst);
        var f := BuildFragment(cmd, start, seqNum, raw);
        BufferFrame(f);
        start := if start + PAYLOAD_SIZE > length then length else start + PAYLOAD_SIZE;
      }
      SendingTurn.FragmentDone(cfg, Snapshot(), cmd, start);
    }

    method HandleInputCmds()
      requires Valid()
      modifies this
      ensures Valid() && Snapshot() == InputPass(cfg, old(Snapshot()))
    {
      hide *;
      ValidIs();
      while cmds != []
        invariant Shape() && WellFormed(cfg, Snapshot())
        invariant InputPass(cfg, Snapshot()) == InputPass(cfg, old(Snapshot()))
        decreases |cmds|
      {
        SendingTurn.InputUnfold(cfg, Snapshot());
        ghost var rest := cmds[1..];
        var cmd := TakeCmd();
        FragmentCommand(cmd);
        assert |rest| == |cmds|;
      }
      SendingTurn.InputPassEnd(cfg, Snapshot());
      ValidIs();
    }

    // ---------- handle_timedout_frames ----------

    method ClearTimers(d: nat)
      requires Shape() && d < cfg.hosts
      modifies sends.slots
      ensures var h := old(Snapshot());
              Shape() && Snapshot() == SetSend(h, d, h.send[d].(window := ClearTimeouts(h.send[d].window)))
    {
      hide *;
      ghost var h, p := Snapshot(), Snapshot().send[d];
      var length := Length(d);
      var i := 0;
      ClearedNone(p.window);
      SetSendTwice(h, d, p, p);
      while i < length
        invariant 0 <= i <= length && Shape()
        invariant Snapshot() == SetSend(h, d, p.(window := ClearedUpTo(p.window, i)))
      {
        ClearedMore(p.window, i);
        SetSendTwice(h, d, p.(window := ClearedUpTo(p.window, i)), p.(window := ClearedUpTo(p.window, i + 1)));
        SetTimeout(d, i, None);
        i := i + 1;
      }
      ClearedAll(p.window);
    }

    /** Has some timer of the window run out? */
    method AnyExpired(d: nat, curr: int) returns (expired: bool)
      requires Shape() && d < cfg.hosts
      ensures expired <==> SomeExpired(Snapshot().send[d].window, curr)
    {
      hide *;
      ghost var w := Snapshot().send[d].window;
      var length := Length(d);
      var j := 0;
      while j < length
        invariant 0 <= j <= length
        invariant forall k :: 0 <= k < j ==> !Expired(w[k], curr)
      {
        var slot := GetSlot(d, j);
        ExpiredIs(slot, curr);
        if slot.timeout.Some? && slot.timeout.value <= curr {
          SomeExpiredIs(w, curr, j);
          return true;
        }
        j := j + 1;
      }
      NoneExpired(w, curr);
      return false;
    }

    /** One destination's share: an expired slot resets the whole window. */
    method ExpireWindow(d: nat, curr: int)
      requires Shape() && d < cfg.hosts
      modifies this, sends.slots
      ensures Shape() && Snapshot() == SetSend(old(Snapshot()), d, OnTimeout(old(Snapshot()).send[d], curr))
    {
      hide Shape, Snapshot, SetSend, ClearTimeouts, SomeExpired;
      ghost var h, p := Snapshot(), Snapshot().send[d];
      SetSendTwice(h, d, p.(window := ClearTimeouts(p.window)), OnTimeout(p, curr));
      var expired := AnyExpired(d, curr);
      if expired {
        ClearTimers(d);
        Tables();
        var c := cc[d];
        c := c.(state := SlowStart);
        c := c.(ssthresh := c.cwnd / 2.0);
        c := c.(cwnd := 1.0);
        SetCC(d, c);
      }
    }

    method HandleTimedoutFrames(curr: int)
      requires Shape()
      modifies this, sends.slots
      ensures Shape() && Snapshot() == TimeoutPass(old(Snapshot()), curr)
    {
      hide *;
      Tables();
      var d := 0;
      TimeoutNone(Snapshot(), curr);
      while d < cfg.hosts
        invariant 0 <= d <= cfg.hosts && Shape()
        invariant Snapshot() == TimeoutUpTo(old(Snapshot()), d, curr)
      {
        TimeoutMore(old(Snapshot()), d, curr);
        if d != id {
          ExpireWindow(d, curr);
        }
        d := d + 1;
      }
      TimeoutAll(old(Snapshot()), curr);
    }

    // ---------- handle_outgoing_frames ----------

    /** frames_per_rtt: the congestion windows, truncated. */
    method FramesPerRtt() returns (budgets: array<int>)
      requires Shape()
      ensures fresh(budgets) && budgets[..] == Budgets(Snapshot())
    {
      Tables();
      budgets := new int[cfg.hosts];
      var i := 0;
      while i < cfg.hosts
        invariant 0 <= i <= cfg.hosts
        invariant forall k :: 0 <= k < i ==> budgets[k] == cc[k].cwnd.Floor
      {
        budgets[i] := cc[i].cwnd.Floor;
        i := i + 1;
      }
    }

    /** Resend the timed-out slots of one destination as far as its budget goes. */
    method ResendSlots(d: nat, budgets: array<int>)
      requires Shape() && d < cfg.hosts == budgets.Length
      modifies this, sends.slots, budgets
      ensures Shape()
      ensures var (r, left) := ResendWindow(cfg, old(Snapshot()), d, 0, old(budgets[d]));
              Snapshot() == r && budgets[..] == old(budgets[..])[d := left]
    {
      hide *;
      var length := Length(d);
      var i := 0;
      ghost var b := budgets[..];
      while i < length
        invariant Shape() && 0 <= i <= length == |Snapshot().send[d].window|
        invariant budgets[..] == b[d := budgets[d]]
        invariant ResendWindow(cfg, Snapshot(), d, i, budgets[d]) == ResendWindow(cfg, old(Snapshot()), d, 0, b[d])
      {
        SendingTurn.ResendUnfold(cfg, Snapshot(), d, i, budgets[d]);
        var slot := GetSlot(d, i);
        if slot.timeout == None && budgets[d] > 0 {
          SendingTurn.RetransmitFrame(cfg, Snapshot(), d, slot.frame.seqNum);
          RetransmitFrame(d, slot.frame.seqNum);
          budgets[d] := budgets[d] - 1;
        }
        i := i + 1;
      }
      SendingTurn.ResendUnfold(cfg, Snapshot(), d, i, budgets[d]);
    }

    method ResendAll(budgets: array<int>)
      requires Shape() && budgets.Length == cfg.hosts
      modifies this, sends.slots, budgets
      ensures Shape() && (Snapshot(), budgets[..]) == ResendPass(cfg, old(Snapshot()), 0, old(budgets[..]))
    {
      hide *;
      var d := 0;
      while d < cfg.hosts
        invariant 0 <= d <= cfg.hosts && Shape()
        invariant ResendPass(cfg, Snapshot(), d, budgets[..]) == ResendPass(cfg, old(Snapshot()), 0, old(budgets[..]))
      {
        SendingTurn.ResendPassUnfold(cfg, Snapshot(), d, budgets[..]);
        if d != id {
          ResendSlots(d, budgets);
        }
        d := d + 1;
      }
      SendingTurn.ResendPassUnfold(cfg, Snapshot(), d, budgets[..]);
    }

    /** Move one buffered frame into its window and onto the network. */
    method SendOne(pos: nat, timeout: int)
      requires Shape() && pos < |buffered| && buffered[pos].dst < cfg.hosts
      requires |Snapshot().send[buffered[pos].dst].window| != cfg.window
      modifies this, sends, sends.slots
      ensures Shape() && Snapshot() == SendingTurn.SendStep(cfg, old(Snapshot()), pos, timeout)
    {
      hide *;
      var frame := buffered[pos];
      SendStepIs(cfg, Snapshot(), pos, timeout);
      ghost var p := Snapshot().send[frame.dst];
      SetSendIs(Snapshot().(buffered := RemoveAt(buffered, pos), outgoing := outgoing + [frame]), frame.dst,
                p.(window := p.window + [Slot(frame, Some(timeout))]));
      var outgoingFrame := TakeBuffered(pos);
      Emit(outgoingFrame);
      AppendSlot(frame.dst, outgoingFrame, Some(timeout));
    }

    /** Move buffered frames into the windows and onto the network, in list order. */
    method SendBuffered(curr: int, budgets: array<int>)
      requires Valid() && budgets.Length == cfg.hosts
      modifies this, sends, sends.slots, budgets
      ensures Valid() && Snapshot() == SendPass(cfg, old(Snapshot()), 0, old(budgets[..]), curr, 0)
    {
      hide *;
      ValidIs();
      var length := |buffered|;
      var i, pos, additional := 0, 0, 0;
      while i < length
        invariant 0 <= i <= length && 0 <= pos && pos + (length - i) == |buffered|
        invariant Shape() && WellFormed(cfg, Snapshot())
        invariant SendPass(cfg, Snapshot(), pos, budgets[..], curr, additional) ==
                  SendPass(cfg, old(Snapshot()), 0, old(budgets[..]), curr, 0)
      {
        SendingTurn.SendUnfold(cfg, Snapshot(), pos, budgets[..], curr, additional);
        var frame := buffered[pos];
        StaysIs(cfg, Snapshot(), frame.dst, budgets[..]);
        var filled := Length(frame.dst);
        if filled == cfg.window || budgets[frame.dst] == 0 {
          pos := pos + 1;
        } else {
          budgets[frame.dst] := budgets[frame.dst] - 1;
          SendOne(pos, curr + TIMEOUT_INTERVAL_USEC + additional);
          additional := additional + FRAME_GAP_USEC;
        }
        i := i + 1;
      }
      SendingTurn.SendUnfold(cfg, Snapshot(), pos, budgets[..], curr, additional);
      SetLatestTimeout(curr + additional);
      SendPassKeeps(cfg, old(Snapshot()), old(budgets[..]), curr);
      ValidIs();
    }

    method HandleOutgoingFrames(now: int)
      requires Valid()
      modifies this, sends, sends.slots
      ensures Valid() && Snapshot() == OutPass(cfg, old(Snapshot()), now)
    {
      hide *;
      ValidIs();
      SendingTurn.OutUnfold(cfg, Snapshot(), now);
      var curr := Max(now, latestTimeout);
      var budgets := FramesPerRtt();
      ResendAll(budgets);
      ValidIs();
      SendBuffered(curr, budgets);
    }

    // ---------- run_senders ----------

    /** host_get_next_expiring_timeval: the earliest running timer of any window. */
    method NextExpiringTimeout() returns (next: Option<int>)
      requires Shape()
      ensures forall curr :: ReachedTimeout(Snapshot(), curr) <==> next.Some? && next.value <= curr
    {
      hide *;
      next := None;
      var d := 0;
      ghost var h := Snapshot();
      EarliestNone(h);
      while d < cfg.hosts
        invariant 0 <= d <= cfg.hosts
        invariant Earliest(h, d, 0, next)
      {
        EarliestUnfold(h, d, 0, next);
        if d != id {
          var length := Length(d);
          var i := 0;
          while i < length
            invariant 0 <= i <= length && Earliest(h, d, i, next)
          {
            EarliestUnfold(h, d, i, next);
            var slot := GetSlot(d, i);
            if slot.timeout.Some? && (next.None? || slot.timeout.value < next.value) {
              next := slot.timeout;
            }
            i := i + 1;
          }
          EarliestUnfold(h, d, i, next);
        }
        d := d + 1;
      }
      EarliestReached(h, next);
    }

    /** Is there input, an incoming frame, or an expired timer? */
    method ShouldWake(curr: int) returns (awake: bool)
      requires Shape()
      ensures awake <==> Awake(Snapshot(), curr)
    {
      hide ReachedTimeout;
      hide Shape;
      var next := NextExpiringTimeout();
      awake := cmds != [] || incoming != [] || (next.Some? && next.value <= curr);
    }

    method RunSender()
      requires Valid()
      modifies this, sends, sends.slots
      ensures Valid() && Snapshot() == Turn(cfg, old(Snapshot()))
    {
      hide *;
      ValidIs();
      SendingTurn.TurnUnfold(cfg, Snapshot());
      var curr := ReadClock();
      ghost var h0 := Snapshot();
      SendingTurn.PassesUnfold(cfg, h0, curr);
      var awake := ShouldWake(curr);
      if awake {
        ValidIs();
        HandleInputCmds();
        HandleIncomingAcks();
        ValidIs();
        HandleTimedoutFrames(curr);
        ValidIs();
        HandleOutgoingFrames(curr);
      }
      ValidIs();
      var awaiting := AwaitsAck();
      SetActive(awaiting || buffered != []);
      SendingTurn.TurnWellFormed(cfg, old(Snapshot()));
      ValidIs();
    }

    /** The scan over all slots that sets awaiting_ack. */
    method AwaitsAck() returns (awaiting: bool)
      requires Shape()
      ensures awaiting <==> AwaitingAck(Snapshot())
    {
      hide RingOk;
      hide Ring;
      awaiting := sends.AnyFrame();
    }

    // ---------- reassemble_message ----------

    /** Copy the payloads one after the other into a buffer of `nBytes`. */
    method Concatenate(frames: seq<Frame>, nBytes: nat) returns (msg: array<Byte>)
      requires nBytes == |Buffer(frames)|
      ensures fresh(msg) && msg[..] == Buffer(frames)
    {
      hide Buffer;
      hide StrNCpy;
      msg := new Byte[nBytes](_ => NUL);
      var start, j := 0, 0;
      BufferNone();
      assert frames[..0] == [];
      while j < |frames|
        invariant 0 <= j <= |frames| && 0 <= start <= nBytes
        invariant msg[..start] == Buffer(frames[..j])
      {
        BufferNext(frames, j);
        BufferGrows(frames, j + 1);
        var piece := StrNCpy(frames[j].data, frames[j].length);
        ghost var done := msg[..start];
        forall i | 0 <= i < |piece| {
          msg[start + i] := piece[i];
        }
        start := start + |piece|;
        assert msg[..start] == done + piece;
        j := j + 1;
      }
      assert frames[..j] == frames;
      assert msg[..nBytes] == msg[..];
    }

    /**
     * If a message is complete, take its frames off the list and return what printing it shows; else change nothing.
     */
    method ReassembleMessage(src: nat) returns (msg: Option<CString>)
      requires Shape() && src < cfg.hosts
      modifies this`recvMsgs
      ensures Shape()
      ensures var h, msgs := old(Snapshot()), old(Snapshot()).recv[src].msgs;
              var k := FirstEnd(msgs);
              if k == |msgs| then msg == None && Snapshot() == h
              else msg == Some(Printed(Buffer(msgs[..k + 1]))) &&
                   Snapshot() == h.(recv := h.recv[src := h.recv[src].(msgs := msgs[k + 1..])])
    {
      hide *;
      Tables();
      var msgs := recvMsgs[src];
      var i, nBytes := 0, 0;
      BufferNone();
      assert msgs[..0] == [];
      while i < |msgs|
        invariant 0 <= i <= |msgs| && nBytes == |Buffer(msgs[..i])|
        invariant forall j :: 0 <= j < i ==> msgs[j].remaining != 0
        invariant Shape() && Snapshot() == old(Snapshot())
      {
        var frame := msgs[i];
        BufferNext(msgs, i);
        nBytes := nBytes + frame.length;
        if frame.remaining == 0 {
          FirstEndIs(msgs, i);
          var text := Concatenate(msgs[..i + 1], nBytes);
          msg := Some(Printed(text[..]));
          SetMsgs(src, msgs[i + 1..]);
          return;
        }
        i := i + 1;
      }
      FirstEndIs(msgs, i);
      msg := None;
    }

    /** Print every complete message from `src`. */
    method PrintMessages(src: uint8)
      requires Shape() && src < cfg.hosts
      modifies this`recvMsgs, this`printed
      ensures Shape()
      ensures var h, p := old(Snapshot()), old(Snapshot()).recv[src];
              var (texts, rest) := Drain(p.msgs);
              Snapshot() == h.(recv := h.recv[src := p.(msgs := rest)], printed := h.printed + Lines(src, texts))
    {
      hide *;
      ghost var h, p := Snapshot(), Snapshot().recv[src];
      RecvTwice(h, src, p, p);
      DrainStart(h, src, p);
      var more := true;
      while more
        invariant Shape() && Draining(h, src, p, Snapshot())
        invariant !more ==> FirstEnd(Snapshot().recv[src].msgs) == |Snapshot().recv[src].msgs|
        decreases |Snapshot().recv[src].msgs|, more
      {
        DrainingUnfold(h, src, p, Snapshot());
        var msg := ReassembleMessage(src);
        if msg.Some? {
          PrintLine(Line(src, msg.value));
        } else {
          more := false;
        }
      }
      DrainingUnfold(h, src, p, Snapshot());
    }

    // ---------- handle_incoming_frames ----------

    /** The frame in the first slot joins the message list and leaves the window. */
    method DeliverFirst(src: nat, f: Frame)
      requires Shape() && src < cfg.hosts && Snapshot().recv[src].window[0] == Some(f)
      modifies this`recvLfr, this`recvMsgs, recvs, recvs.slots
      ensures Shape()
      ensures var h, q := old(Snapshot()), old(Snapshot()).recv[src];
              Snapshot() == h.(recv := h.recv[src := Receiving(q.window[1..] + [None], Wrap(q.lfr + 1), q.msgs + [f])])
    {
      hide *;
      Tables();
      ghost var h, q := Snapshot(), Snapshot().recv[src];
      ghost var q1 := q.(msgs := q.msgs + [f]);
      ghost var q2 := q1.(window := q.window[1..] + [None]);
      RecvTwice(h, src, q1, q2);
      RecvTwice(h, src, q2, Receiving(q.window[1..] + [None], Wrap(q.lfr + 1), q.msgs + [f]));
      SetMsgs(src, recvMsgs[src] + [f]);
      DequeueReceived(src);
      var lfr: int := recvLfr[src];
      SetLfr(src, Wrap(lfr + 1));
    }

    /** Buffer a frame that lies in the window, advance, and return the number to acknowledge. */
    method AcceptFrame(src: nat, f: Frame) returns (ackSeqNum: uint8)
      requires Shape() && src < cfg.hosts
      modifies this`recvLfr, this`recvMsgs, recvs, recvs.slots
      ensures var h, p := old(Snapshot()), Accept(cfg, old(Snapshot()).recv[src], f);
              Shape() && Snapshot() == h.(recv := h.recv[src := p]) && ackSeqNum == p.lfr
    {
      hide *;
      Tables();
      ghost var h, p := Snapshot(), Snapshot().recv[src];
      AcceptIs(cfg, p, f);
      RecvTwice(h, src, p, p);
      ackSeqNum := recvLfr[src];
      var bufferIdx := SeqNumDiff(recvLfr[src], f.seqNum);
      if !(bufferIdx > 0 && bufferIdx <= cfg.window) {
        return;
      }
      ghost var stored := p.(window := p.window[bufferIdx - 1 := Some(f)]);
      StoreReceived(src, bufferIdx - 1, f);
      var i := 0;
      while i < cfg.window
        invariant 0 <= i <= cfg.window && Shape()
        invariant Snapshot() == h.(recv := h.recv[src := Snapshot().recv[src]])
        invariant Advance(Snapshot().recv[src], cfg.window - i) == Advance(stored, cfg.window)
        invariant ackSeqNum == Snapshot().recv[src].lfr
      {
        ghost var q := Snapshot().recv[src];
        AdvanceUnfold(q, cfg.window - i);
        var first := FirstReceived(src);
        if first == None {
          break;
        }
        RecvTwice(h, src, q, Receiving(q.window[1..] + [None], Wrap(q.lfr + 1), q.msgs + [first.value]));
        DeliverFirst(src, first.value);
        ackSeqNum := Wrap(ackSeqNum + 1);
        i := i + 1;
      }
      AdvanceUnfold(Snapshot().recv[src], cfg.window - i);
    }

    /** One round of the loop: pop a frame, check it, buffer it, acknowledge, print. */
    method HandleFrame()
      requires Valid() && incoming != []
      modifies this, recvs, recvs.slots
      ensures Valid() && Snapshot() == ReceiveOne(cfg, old(Snapshot()))
    {
      hide *;
      ValidIs();
      ghost var h := Snapshot();
      ReceiveIs(cfg, h);
      var inframe := incoming[0];
      RemoveIncoming(0);
      var valid := CheckFrame(inframe);
      if valid {
        var ackSeqNum := AcceptFrame(inframe.src, inframe);
        ghost var p := Snapshot().recv[inframe.src];
        var raw := Malloc();
        var ackFrame := BuildAck(id, inframe.src, ackSeqNum, raw);
        Emit(ackFrame);
        RecvTwice(h, inframe.src, p, p.(msgs := Drain(p.msgs).1));
        PrintMessages(inframe.src);
      }
      ValidIs();
    }

    // ---------- what the switch and the input reader do to a host ----------

    method PopOutgoing() returns (f: Frame)
      requires Shape() && outgoing != []
      modifies this`outgoing
      ensures Shape() && f == old(outgoing)[0] && Snapshot() == old(Snapshot()).(outgoing := old(outgoing)[1..])
    {
      hide RingOk;
      f := outgoing[0];
      outgoing := outgoing[1..];
    }

    method AppendIncoming(f: Frame)
      requires Shape()
      modifies this`incoming
      ensures Shape() && Snapshot() == old(Snapshot()).(incoming := old(incoming) + [f])
    {
      hide RingOk;
      incoming := incoming + [f];
    }

    method AppendCmd(cmd: Cmd)
      requires Shape()
      modifies this`cmds
      ensures Shape() && Snapshot() == old(Snapshot()).(cmds := old(cmds) + [cmd])
    {
      hide RingOk;
      cmds := cmds + [cmd];
    }
  }
}
