/**
 * What one host computes, as functions on values: the four passes of its sending turn and the handling of one
 * incoming frame. The class `Host` is proved against these functions.
 */
module HostModel {
  import opened Common
  import opened SeqNum
  import opened Frames

  const TIMEOUT_INTERVAL_USEC := 100000
  const FRAME_GAP_USEC := 10000

  // ---------- state ----------

  /** The bytes of a C string before its terminator. */
  type CString = s: seq<Byte> | NUL !in s

  datatype Cmd = Cmd(src: uint8, dst: uint8, message: CString)

  datatype CCState = SlowStart | AIMD | FastRecovery

  datatype CongestionControl = CongestionControl(cwnd: real, ssthresh: real, dupAcks: uint8, state: CCState)

  datatype Slot = Slot(frame: Frame, timeout: Option<int>)

  /** A host's sending state towards one destination; `window` lists the live slots from the oldest. */
  datatype Sending = Sending(window: seq<Slot>, currSeq: uint8, dupSeq: uint8, cc: CongestionControl)

  /** A host's receiving state from one source; `msgs` holds in-order frames not yet printed. */
  datatype Receiving = Receiving(window: seq<Option<Frame>>, lfr: uint8, msgs: seq<Frame>)

  /** A printed message, tagged with the source it came from. */
  datatype Line = Line(src: uint8, text: CString)

  /** `ticks` and `mallocs` count the clock readings and the uninitialised frames this host has taken so far. */
  datatype HostState = HostState(
    id: uint8, cmds: seq<Cmd>, incoming: seq<Frame>, buffered: seq<Frame>, outgoing: seq<Frame>,
    send: seq<Sending>, recv: seq<Receiving>, latestTimeout: int, printed: seq<Line>,
    active: bool, ticks: nat, mallocs: nat)

  /**
   * Window size, number of hosts, the switch's acceptance rate and queue capacity, and what the environment supplies:
   * the k-th clock reading and the garbage in the k-th malloc'ed frame of each host.
   */
  datatype Config = Config(window: nat, hosts: nat, rate: nat, capacity: nat,
                           clock: (nat, nat) -> int, heap: (nat, nat) -> Frame)

  ghost predicate ValidConfig(cfg: Config) {
    1 <= cfg.window <= 127 && 2 <= cfg.hosts <= 256 && 1 <= cfg.rate
  }

  /** Every index a handler uses is in range. */
  ghost predicate WellFormed(cfg: Config, h: HostState) {
    && h.id < cfg.hosts == |h.send| == |h.recv|
    && (forall c :: c in h.cmds ==> c.dst < cfg.hosts)
    && (forall f :: f in h.buffered ==> f.dst < cfg.hosts)
    && (forall f :: f in h.incoming && FrameValid(f) ==> f.src < cfg.hosts)
  }

  function SetSend(h: HostState, d: nat, p: Sending): HostState
    requires d < |h.send|
  {
    h.(send := h.send[d := p])
  }

  // ---------- handle_incoming_acks ----------

  function Reciprocal(x: real): real {
    if x == 0.0 then 0.0 else 1.0 / x
  }

  function MaxReal(a: real, b: real): real {
    if a >= b then a else b
  }

  /** Duplicate-ACK bookkeeping, done before the congestion state is consulted. */
  function CountAck(p: Sending, seqNum: uint8): Sending {
    if SeqNumDiff(p.dupSeq, seqNum) > 0 then
      p.(dupSeq := seqNum, cc := p.cc.(dupAcks := 0))
    else if p.dupSeq == seqNum then
      var cc := p.cc.(dupAcks := Wrap(p.cc.dupAcks + 1));
      p.(cc := if cc.state == FastRecovery then cc.(cwnd := cc.cwnd + 1.0) else cc)
    else
      p
  }

  predicate EntersFastRecovery(cc: CongestionControl) {
    cc.state == AIMD && cc.dupAcks == 3
  }

  function OnAckCC(cc: CongestionControl): CongestionControl {
    if cc.state == SlowStart then
      var cwnd := cc.cwnd + 1.0;
      cc.(cwnd := cwnd, state := if cwnd > cc.ssthresh then AIMD else SlowStart)
    else if cc.state == AIMD && cc.dupAcks == 0 then
      cc.(cwnd := cc.cwnd + Reciprocal(cc.cwnd))
    else if cc.state == FastRecovery && cc.dupAcks == 0 then
      cc.(state := AIMD, cwnd := cc.ssthresh)
    else if EntersFastRecovery(cc) then
      var ssthresh := MaxReal(cc.cwnd / 2.0, 2.0);
      cc.(state := FastRecovery, ssthresh := ssthresh, cwnd := ssthresh + 3.0)
    else
      cc
  }

  /** Index of the first slot carrying `seqNum`, or the window length. */
  function FindSeq(window: seq<Slot>, seqNum: uint8): (k: nat)
    ensures k <= |window|
  {
    if window == [] || window[0].frame.seqNum == seqNum then 0 else 1 + FindSeq(window[1..], seqNum)
  }

  lemma {:induction false} FindSeqIs(window: seq<Slot>, seqNum: uint8, i: nat)
    requires i <= |window| && forall j :: 0 <= j < i ==> window[j].frame.seqNum != seqNum
    requires i < |window| ==> window[i].frame.seqNum == seqNum
    ensures FindSeq(window, seqNum) == i
  {
    if i > 0 {
      FindSeqIs(window[1..], seqNum, i - 1);
    }
  }

  /**
   * retransmit_frame: resend the first slot carrying `seqNum` and restart its timer. If no slot carries it, the timer
   * of the last slot examined is restarted; an empty window leaves the slots alone.
   */
  function Retransmit(cfg: Config, h: HostState, d: nat, seqNum: uint8): (r: HostState)
    requires d < |h.send|
    ensures |r.send| == |h.send| && |r.send[d].window| == |h.send[d].window|
    ensures r == h.(outgoing := r.outgoing, send := h.send[d := h.send[d].(window := r.send[d].window)],
                    latestTimeout := r.latestTimeout, ticks := r.ticks)
  {
    var now := Max(cfg.clock(h.id, h.ticks), h.latestTimeout);
    var window := h.send[d].window;
    var k := FindSeq(window, seqNum);
    var h1 := h.(latestTimeout := now + FRAME_GAP_USEC, ticks := h.ticks + 1);
    if window == [] then
      assert h.send[d := h.send[d].(window := window)] == h.send;
      h1
    else
      var j := if k < |window| then k else |window| - 1;
      var restarted := window[j := window[j].(timeout := Some(now + TIMEOUT_INTERVAL_USEC))];
      SetSend(h1, d, h1.send[d].(window := restarted))
      .(outgoing := if k < |window| then h.outgoing + [window[k].frame] else h.outgoing)
  }

  /** Drop the acknowledged slots, unless the ACK is older than the window. */
  function Slide(p: Sending, seqNum: uint8): Sending {
    if p.window == [] || SeqNumDiff(p.window[0].frame.seqNum, seqNum) < 0 then p
    else
      var k := FindSeq(p.window, seqNum);
      if k < |p.window| then p.(window := p.window[k + 1..]) else p
  }

  function OnAck(cfg: Config, h: HostState, src: nat, seqNum: uint8): (r: HostState)
    requires src < |h.send|
    ensures |r.send| == |h.send|
    ensures r == h.(outgoing := r.outgoing, send := r.send, latestTimeout := r.latestTimeout, ticks := r.ticks)
  {
    var p := CountAck(h.send[src], seqNum);
    var h1 := SetSend(h, src, p.(cc := OnAckCC(p.cc)));
    var h2 := if EntersFastRecovery(p.cc) then Retransmit(cfg, h1, src, Wrap(seqNum + 1)) else h1;
    SetSend(h2, src, Slide(h2.send[src], seqNum))
  }

  /** Walk the incoming list from `pos`: corrupted frames and ACKs are removed, data frames are stepped over. */
  function AckPass(cfg: Config, h: HostState, pos: nat): (r: HostState)
    requires WellFormed(cfg, h)
    ensures WellFormed(cfg, r)
    decreases |h.incoming| - pos
  {
    if pos >= |h.incoming| then h
    else
      var f := h.incoming[pos];
      if FrameValid(f) && f.isAck == 0 then AckPass(cfg, h, pos + 1)
      else
        var h1 := h.(incoming := RemoveAt(h.incoming, pos));
        AckPass(cfg, if FrameValid(f) then OnAck(cfg, h1, f.src, f.seqNum) else h1, pos)
  }

  // ---------- handle_input_cmds ----------

  /** strncpy: copy up to the first NUL, then pad with NULs. */
  function StrNCpy(s: seq<Byte>, n: nat): (r: seq<Byte>)
    ensures |r| == n
  {
    if n == 0 then []
    else if s == [] || s[0] == NUL then seq(n, i => NUL)
    else [s[0]] + StrNCpy(s[1..], n - 1)
  }

  /** The message as stored: with its terminator. */
  function Stored(message: CString): seq<Byte> {
    message + [NUL]
  }

  /** The fragment of a command that starts at byte `start`, built in the malloc'ed frame `raw`. */
  function FragmentAt(cmd: Cmd, start: nat, seqNum: uint8, raw: Frame): Frame
    requires start < |Stored(cmd.message)|
  {
    var text := Stored(cmd.message);
    var end := Min(start + PAYLOAD_SIZE, |text|);
    var copied := StrNCpy(text[start..], end - start);
    var payload := (if end == |text| then copied[end - start - 1 := NUL] else copied) + raw.data[end - start..];
    SetChecksum(Frame((|text| - end) % 65536, cmd.dst, cmd.src, seqNum, 0, end - start, payload, raw.checksum))
  }

  /** Buffer the fragments of a command from byte `start` on. */
  function Fragment(cfg: Config, h: HostState, cmd: Cmd, start: nat): (r: HostState)
    requires cmd.dst < |h.send|
    ensures |r.send| == |h.send|
    ensures r == h.(buffered := r.buffered, send := r.send, mallocs := r.mallocs)
    decreases |Stored(cmd.message)| - start
  {
    if start >= |Stored(cmd.message)| then h
    else
      var p := h.send[cmd.dst];
      var f := FragmentAt(cmd, start, p.currSeq, cfg.heap(h.id, h.mallocs));
      var h1 := SetSend(h, cmd.dst, p.(currSeq := Wrap(p.currSeq + 1)))
                .(buffered := h.buffered + [f], mallocs := h.mallocs + 1);
      Fragment(cfg, h1, cmd, Min(start + PAYLOAD_SIZE, |Stored(cmd.message)|))
  }

  lemma FragmentDestination(cmd: Cmd, start: nat, seqNum: uint8, raw: Frame)
    requires start < |Stored(cmd.message)|
    ensures FragmentAt(cmd, start, seqNum, raw).dst == cmd.dst
  {
    hide StrNCpy;
  }

  lemma {:induction false} FragmentKeepsDestinations(cfg: Config, h: HostState, cmd: Cmd, start: nat)
    requires cmd.dst < |h.send| == cfg.hosts
    requires forall f :: f in h.buffered ==> f.dst < cfg.hosts
    ensures forall f :: f in Fragment(cfg, h, cmd, start).buffered ==> f.dst < cfg.hosts
    decreases |Stored(cmd.message)| - start
  {
    hide FragmentAt;
    hide Wrap;
    if start < |Stored(cmd.message)| {
      var p := h.send[cmd.dst];
      var f := FragmentAt(cmd, start, p.currSeq, cfg.heap(h.id, h.mallocs));
      FragmentDestination(cmd, start, p.currSeq, cfg.heap(h.id, h.mallocs));
      var h1 := SetSend(h, cmd.dst, p.(currSeq := Wrap(p.currSeq + 1)))
                .(buffered := h.buffered + [f], mallocs := h.mallocs + 1);
      assert forall g :: g in h1.buffered ==> g in h.buffered || g == f;
      FragmentKeepsDestinations(cfg, h1, cmd, Min(start + PAYLOAD_SIZE, |Stored(cmd.message)|));
    }
  }

  function InputPass(cfg: Config, h: HostState): (r: HostState)
    requires WellFormed(cfg, h)
    ensures WellFormed(cfg, r)
    decreases |h.cmds|
  {
    if h.cmds == [] then h
    else
      var h1 := h.(cmds := h.cmds[1..]);
      FragmentKeepsDestinations(cfg, h1, h.cmds[0], 0);
      InputPass(cfg, Fragment(cfg, h1, h.cmds[0], 0))
  }

  // ---------- handle_timedout_frames ----------

  predicate Expired(s: Slot, curr: int) {
    s.timeout.Some? && s.timeout.value <= curr
  }

  predicate SomeExpired(window: seq<Slot>, curr: int) {
    exists j :: 0 <= j < |window| && Expired(window[j], curr)
  }

  function ClearTimeouts(window: seq<Slot>): seq<Slot> {
    seq(|window|, i requires 0 <= i < |window| => window[i].(timeout := None))
  }

  /** One expired slot stops the timers of its whole window and restarts slow start. */
  function OnTimeout(p: Sending, curr: int): Sending {
    if SomeExpired(p.window, curr) then
      p.(window := ClearTimeouts(p.window),
         cc := p.cc.(state := SlowStart, ssthresh := p.cc.cwnd / 2.0, cwnd := 1.0))
    else p
  }

  function TimeoutPass(h: HostState, curr: int): HostState {
    h.(send := seq(|h.send|, d requires 0 <= d < |h.send| =>
                 if d == h.id then h.send[d] else OnTimeout(h.send[d], curr)))
  }

  // ---------- handle_outgoing_frames ----------

  function Budgets(h: HostState): (b: seq<int>)
    ensures |b| == |h.send|
  {
    seq(|h.send|, d requires 0 <= d < |h.send| => h.send[d].cc.cwnd.Floor)
  }

  /** Resend the timed-out slots of destination d from slot i on, as far as the budget goes. */
  function ResendWindow(cfg: Config, h: HostState, d: nat, i: nat, budget: int): (r: (HostState, int))
    requires d < |h.send|
    ensures |r.0.send| == |h.send|
    ensures r.0 == h.(outgoing := r.0.outgoing, send := r.0.send, latestTimeout := r.0.latestTimeout,
                      ticks := r.0.ticks)
    decreases |h.send[d].window| - i
  {
    if i >= |h.send[d].window| then (h, budget)
    else
      var slot := h.send[d].window[i];
      if slot.timeout.None? && budget > 0
      then ResendWindow(cfg, Retransmit(cfg, h, d, slot.frame.seqNum), d, i + 1, budget - 1)
      else ResendWindow(cfg, h, d, i + 1, budget)
  }

  function ResendPass(cfg: Config, h: HostState, d: nat, budgets: seq<int>): (r: (HostState, seq<int>))
    requires |budgets| == |h.send|
    ensures |r.1| == |r.0.send| == |h.send|
    ensures r.0 == h.(outgoing := r.0.outgoing, send := r.0.send, latestTimeout := r.0.latestTimeout,
                      ticks := r.0.ticks)
    decreases |h.send| - d
  {
    if d >= |h.send| then (h, budgets)
    else if d == h.id then ResendPass(cfg, h, d + 1, budgets)
    else
      var (h1, b) := ResendWindow(cfg, h, d, 0, budgets[d]);
      ResendPass(cfg, h1, d + 1, budgets[d := b])
  }

  /**
   * Walk the buffered list from `pos`: a frame whose window has room and whose destination has budget is sent and
   * enters the window, any other is stepped over. `extra` spaces the new timers.
   */
  function SendPass(cfg: Config, h: HostState, pos: nat, budgets: seq<int>, curr: int, extra: int): (r: HostState)
    requires WellFormed(cfg, h) && |budgets| == |h.send|
    ensures WellFormed(cfg, r)
    decreases |h.buffered| - pos
  {
    if pos >= |h.buffered| then h.(latestTimeout := curr + extra)
    else
      var f := h.buffered[pos];
      var p := h.send[f.dst];
      if |p.window| == cfg.window || budgets[f.dst] == 0 then SendPass(cfg, h, pos + 1, budgets, curr, extra)
      else
        var slot := Slot(f, Some(curr + TIMEOUT_INTERVAL_USEC + extra));
        var h1 := SetSend(h, f.dst, p.(window := p.window + [slot]))
                  .(buffered := RemoveAt(h.buffered, pos), outgoing := h.outgoing + [f]);
        SendPass(cfg, h1, pos, budgets[f.dst := budgets[f.dst] - 1], curr, extra + FRAME_GAP_USEC)
  }

  function OutPass(cfg: Config, h: HostState, curr: int): (r: HostState)
    requires WellFormed(cfg, h)
    ensures WellFormed(cfg, r)
  {
    var now := Max(curr, h.latestTimeout);
    var (h1, budgets) := ResendPass(cfg, h, 0, Budgets(h));
    SendPass(cfg, h1, 0, budgets, now, 0)
  }

  // ---------- run_senders, for one host ----------

  predicate ReachedTimeout(h: HostState, curr: int) {
    exists d :: 0 <= d < |h.send| && d != h.id && SomeExpired(h.send[d].window, curr)
  }

  predicate AwaitingAck(h: HostState) {
    exists d :: 0 <= d < |h.send| && h.send[d].window != []
  }

  /** The passes before sending: input, ACKs, timeouts. */
  function EarlyPasses(cfg: Config, h: HostState, curr: int): (r: HostState)
    requires WellFormed(cfg, h)
    ensures WellFormed(cfg, r)
  {
    TimeoutPass(AckPass(cfg, InputPass(cfg, h), 0), curr)
  }

  function Passes(cfg: Config, h: HostState, curr: int): (r: HostState)
    requires WellFormed(cfg, h)
    ensures WellFormed(cfg, r)
  {
    OutPass(cfg, EarlyPasses(cfg, h, curr), curr)
  }

  predicate Awake(h: HostState, curr: int) {
    h.cmds != [] || h.incoming != [] || ReachedTimeout(h, curr)
  }

  /** One host's share of run_senders: read the clock, wake if there is something to do, recompute `active`. */
  function Turn(cfg: Config, h: HostState): (r: HostState)
    requires WellFormed(cfg, h)
    ensures WellFormed(cfg, r)
  {
    var curr := cfg.clock(h.id, h.ticks);
    var h0 := h.(ticks := h.ticks + 1);
    var h1 := if Awake(h0, curr) then Passes(cfg, h0, curr) else h0;
    h1.(active := AwaitingAck(h1) || h1.buffered != [])
  }

  // ---------- handle_incoming_frames, for one frame ----------

  /** Deliver the in-order prefix of the receive window, at most n frames. */
  function Advance(p: Receiving, n: nat): (r: Receiving)
    ensures |r.window| == |p.window|
    decreases n
  {
    if n == 0 || p.window == [] || p.window[0].None? then p
    else Advance(Receiving(p.window[1..] + [None], Wrap(p.lfr + 1), p.msgs + [p.window[0].value]), n - 1)
  }

  predicate InWindow(cfg: Config, lfr: uint8, seqNum: uint8) {
    0 < SeqNumDiff(lfr, seqNum) <= cfg.window
  }

  /** Buffer a frame that lies in the window and advance past what is now complete. */
  function Accept(cfg: Config, p: Receiving, f: Frame): (r: Receiving)
    requires |p.window| == cfg.window
    ensures |r.window| == |p.window|
  {
    if InWindow(cfg, p.lfr, f.seqNum) then
      var idx := SeqNumDiff(p.lfr, f.seqNum) - 1;
      Advance(p.(window := p.window[idx := Some(f)]), cfg.window)
    else p
  }

  function AckFrame(src: uint8, dst: uint8, seqNum: uint8, raw: Frame): Frame {
    SetChecksum(raw.(src := src, dst := dst, seqNum := seqNum, isAck := 1))
  }

  /** Index of the first frame that ends a message, or the list length. */
  function FirstEnd(msgs: seq<Frame>): (k: nat)
    ensures k <= |msgs|
  {
    if msgs == [] || msgs[0].remaining == 0 then 0 else 1 + FirstEnd(msgs[1..])
  }

  /** The message buffer filled from a run of frames. */
  function Buffer(frames: seq<Frame>): seq<Byte> {
    if frames == [] then [] else StrNCpy(frames[0].data, frames[0].length) + Buffer(frames[1..])
  }

  /** What "%s" prints of a buffer. */
  function Printed(buffer: seq<Byte>): CString {
    if buffer == [] || buffer[0] == NUL then [] else [buffer[0]] + Printed(buffer[1..])
  }

  /** reassemble_message repeated until it fails: the printed texts and the frames left over. */
  function Drain(msgs: seq<Frame>): (r: (seq<CString>, seq<Frame>))
    decreases |msgs|
  {
    var k := FirstEnd(msgs);
    if k == |msgs| then ([], msgs)
    else
      var (texts, rest) := Drain(msgs[k + 1..]);
      ([Printed(Buffer(msgs[..k + 1]))] + texts, rest)
  }

  function Lines(src: uint8, texts: seq<CString>): (r: seq<Line>)
    ensures |r| == |texts| && forall i :: 0 <= i < |r| ==> r[i] == Line(src, texts[i])
  {
    seq(|texts|, i requires 0 <= i < |texts| => Line(src, texts[i]))
  }

  /** Handle the first incoming frame: buffer it, acknowledge, print what is complete. */
  function ReceiveOne(cfg: Config, h: HostState): (r: HostState)
    requires WellFormed(cfg, h) && h.incoming != []
    requires forall s :: 0 <= s < |h.recv| ==> |h.recv[s].window| == cfg.window
    ensures WellFormed(cfg, r)
  {
    var f := h.incoming[0];
    var h0 := h.(incoming := h.incoming[1..]);
    if !FrameValid(f) then h0
    else
      var p := Accept(cfg, h.recv[f.src], f);
      var ack := AckFrame(h.id, f.src, p.lfr, cfg.heap(h.id, h.mallocs));
      var (texts, rest) := Drain(p.msgs);
      h0.(recv := h.recv[f.src := p.(msgs := rest)], outgoing := h.outgoing + [ack],
          printed := h.printed + Lines(f.src, texts), mallocs := h.mallocs + 1)
  }
}
