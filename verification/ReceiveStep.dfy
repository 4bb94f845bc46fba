/** Handling one incoming frame at a receiver keeps the invariant. */
module ReceiveStep {
  import opened Common
  import opened SeqNum
  import opened Frames
  import opened HostModel
  import opened Congestion
  import opened Messages
  import opened SenderPasses
  import opened SendingTurn
  import opened Network
  import opened Invariant
  import opened Preservation
  import opened TurnStep
  import Flow

  /** The receiver after a valid frame: what `ReceiveOne` does, in parts. */
  lemma ReceiveValid(cfg: Config, h: HostState) returns (ack: Frame)
    requires WellFormed(cfg, h) && h.incoming != [] && FrameValid(h.incoming[0])
    requires forall s :: 0 <= s < |h.recv| ==> |h.recv[s].window| == cfg.window
    ensures var f := h.incoming[0];
            && f.src < |h.recv|
            && var p := Accept(cfg, h.recv[f.src], f);
               && ReceiveOne(cfg, h) == h.(incoming := h.incoming[1..],
                                           recv := h.recv[f.src := p.(msgs := Drain(p.msgs).1)],
                                           outgoing := h.outgoing + [ack],
                                           printed := h.printed + Lines(f.src, Drain(p.msgs).0),
                                           mallocs := h.mallocs + 1)
               && FrameValid(ack) && ack.src == h.id && ack.dst == f.src && ack.isAck == 1 && ack.seqNum == p.lfr
  {
    hide FrameValid;
    hide SetChecksum;
    hide Accept;
    hide Drain;
    var f := h.incoming[0];
    assert f in h.incoming;
    var p := Accept(cfg, h.recv[f.src], f);
    ack := AckFrame(h.id, f.src, p.lfr, cfg.heap(h.id, h.mallocs));
    SetChecksumValid(cfg.heap(h.id, h.mallocs).(src := h.id, dst := f.src, seqNum := p.lfr, isAck := 1));
    SetChecksumKeeps(cfg.heap(h.id, h.mallocs).(src := h.id, dst := f.src, seqNum := p.lfr, isAck := 1));
  }

  lemma SetChecksumKeeps(f: Frame)
    ensures SetChecksum(f) == f.(checksum := SetChecksum(f).checksum)
  {}

  lemma ReceiveInvalid(cfg: Config, h: HostState)
    requires WellFormed(cfg, h) && h.incoming != [] && !FrameValid(h.incoming[0])
    requires forall s :: 0 <= s < |h.recv| ==> |h.recv[s].window| == cfg.window
    ensures ReceiveOne(cfg, h) == h.(incoming := h.incoming[1..])
  {
    hide FrameValid;
  }

  // ---------- hosts ----------

  lemma ReceiverFacts(cfg: Config, h: HostState, i: int)
    requires HostOk(cfg, h, i, Receivers)
    ensures WellFormed(cfg, h) && h.id == i && |h.send| == |h.recv| == cfg.hosts
    ensures forall s :: 0 <= s < |h.recv| ==> |h.recv[s].window| == cfg.window
    ensures h.incoming != [] && FrameValid(h.incoming[0]) ==> Arriving(cfg, h.incoming[0], i, false)
  {
    hide FrameValid;
    hide Arriving;
    hide AwaitingAck;
    hide Holds;
    assert h.incoming != [] ==> h.incoming[0] in h.incoming;
  }

  lemma DroppedHost(cfg: Config, h: HostState, i: int)
    requires HostOk(cfg, h, i, Receivers) && h.incoming != []
    ensures HostOk(cfg, h.(incoming := h.incoming[1..]), i, Receivers)
  {
    hide FrameValid;
    hide AwaitingAck;
    var r := h.(incoming := h.incoming[1..]);
    AwaitingSame(h, r);
    HoldsSame(cfg, h.(outgoing := []), r.(outgoing := []));
    hide Holds;
  }

  lemma AcceptWindow(cfg: Config, p: Receiving, f: Frame)
    requires |p.window| == cfg.window
    ensures |Accept(cfg, p, f).window| == cfg.window
  {}

  lemma ReceivedHost(cfg: Config, h: HostState, i: int, r: HostState, s: nat, p: Receiving, ack: Frame,
                     lines: seq<Line>)
    requires HostOk(cfg, h, i, Receivers) && h.incoming != [] && s < |h.recv| && |p.window| == cfg.window
    requires r == h.(incoming := h.incoming[1..], recv := h.recv[s := p], outgoing := h.outgoing + [ack],
                     printed := h.printed + lines, mallocs := h.mallocs + 1)
    requires FrameValid(ack) && ack.src == i && ack.dst == s && s != i && ack.isAck == 1
    ensures HostOk(cfg, r, i, Receivers)
  {
    hide FrameValid;
    hide AwaitingAck;
    AwaitingSame(h, r);
    HoldsSame(cfg, h.(outgoing := []), r.(outgoing := []));
    hide Holds;
  }

  // ---------- printing ----------

  lemma {:induction false} TextsAppend(a: seq<Line>, b: seq<Line>, s: int)
    ensures Texts(a + b, s) == Texts(a, s) + Texts(b, s)
  {
    if b == [] {
      assert a + b == a;
    } else {
      var n := |b| - 1;
      TextsAppend(a, b[..n], s);
      assert (a + b)[..|a + b| - 1] == a + b[..n];
    }
  }

  lemma {:induction false} TextsOfLines(src: uint8, texts: seq<CString>, s: int)
    ensures Texts(Lines(src, texts), s) == if s == src then texts else []
  {
    if texts != [] {
      var n := |texts| - 1;
      TextsOfLines(src, texts[..n], s);
      assert Lines(src, texts)[..n] == Lines(src, texts[..n]);
    }
  }

  /** Printing what is complete after each arrival is the same as reassembling everything delivered so far. */
  lemma ReassembledNext(fl: Flow.Flow, h: HostState, s: nat, msgs: seq<Frame>, next': nat, r: HostState, fl': Flow.Flow)
    requires s < |h.recv| && s < 256 && Reassembled(fl, h, s)
    requires fl.next <= next' <= |fl.gen| && msgs == h.recv[s].msgs + fl.gen[fl.next..next']
    requires |r.recv| == |h.recv| && r.recv[s].msgs == Drain(msgs).1
    requires r.printed == h.printed + Lines(s, Drain(msgs).0)
    requires fl'.gen == fl.gen && fl'.next == next'
    ensures Reassembled(fl', r, s)
  {
    hide Drain;
    hide Texts;
    hide Lines;
    var a, b := fl.gen[..fl.next], fl.gen[fl.next..next'];
    assert fl.gen[..next'] == a + b;
    DrainAppend(a, b);
    TextsAppend(h.printed, Lines(s, Drain(msgs).0), s);
    TextsOfLines(s, Drain(msgs).0, s);
  }

  // ---------- the flow the frame belongs to ----------

  /** The receiving side of a flow when its next data frame is handled and acknowledged. */
  lemma ReceiveFlow(cfg: Config, fl: Flow.Flow, p: Sending, buf: seq<Frame>, r: Receiving, data: seq<Frame>,
                    acks: seq<Frame>, ack: Frame, f: Frame, rest: seq<Frame>, m: seq<Frame>) returns (fl': Flow.Flow)
    requires ValidConfig(cfg) && Flow.FlowOk(cfg, fl, p, buf, r, data, acks) && data == [f] + rest
    requires |r.window| == cfg.window && ack.seqNum == Accept(cfg, r, f).lfr
    ensures fl'.gen == fl.gen && fl'.base == fl.base && fl'.top == fl.top && fl'.flight == fl.flight[1..]
    ensures fl.next <= fl'.next <= |fl.gen| && fl'.acks == fl.acks + [fl'.next]
    ensures fl.flight != [] && fl.flight[0] < |fl.gen| && fl.gen[fl.flight[0]] == f
    ensures var q := Accept(cfg, r, f);
            && q.msgs == r.msgs + fl.gen[fl.next..fl'.next]
            && Flow.FlowOk(cfg, fl', p, buf, q.(msgs := m), rest, acks + [ack])
            && Flow.HasReceived(fl'.next, q.window, fl.flight[0])
  {
    hide Accept;
    hide Drain;
    hide Wrap;
    hide Flow.SenderOk;
    hide Flow.HasReceived;
    assert data[0] == f && data[1..] == rest;
    Flow.SenderFacts(cfg, fl, p, buf);
    var next' := Flow.ReceiveData(cfg, fl, r, data);
    var q := Accept(cfg, r, f);
    Flow.AckAppend(fl, acks, next', ack);
    fl' := fl.(next := next', flight := fl.flight[1..], acks := fl.acks + [next']);
    var fl1 := fl.(next := next', flight := fl.flight[1..]);
    Flow.Retimed(cfg, fl, p, buf, fl', p);
    Flow.ReceiverSame(cfg, fl1, q, fl');
    Flow.FlightSame(cfg, fl1, q, rest, fl');
    Flow.MsgsIrrelevant(cfg, fl', q, rest, m);
    AcksSame(fl, next', fl', acks + [ack]);
  }

  lemma AcksSame(fl: Flow.Flow, next': nat, fl': Flow.Flow, acks: seq<Frame>)
    requires Flow.AcksOk(fl.(next := next', acks := fl.acks + [next']), acks)
    requires fl' == fl.(next := next', flight := fl'.flight, acks := fl.acks + [next'])
    ensures Flow.AcksOk(fl', acks)
  {
    hide Wrap;
  }

  /** The host's own channels before and after it handles a data frame from s and appends `ack`. */
  lemma ReceiveChannels(sys: System, sys': System, i: nat, s: nat, f: Frame, ack: Frame, a: nat, b: nat)
    requires i < |sys.hosts| && a < |sys.hosts| && b < |sys.hosts| == |sys.ingress| && i != s && a != b
    requires sys.hosts[i].incoming != [] && f == sys.hosts[i].incoming[0]
    requires FrameValid(f) && f.src == s && f.dst == i && f.isAck == 0
    requires FrameValid(ack) && ack.src == i && ack.dst == s && ack.isAck == 1
    requires |sys'.hosts| == |sys.hosts| && sys'.ingress == sys.ingress && sys'.hosts == sys.hosts[i := sys'.hosts[i]]
    requires sys'.hosts[i].incoming == sys.hosts[i].incoming[1..]
    requires sys'.hosts[i].outgoing == sys.hosts[i].outgoing + [ack]
    ensures Channel(sys, a, b, false) ==
            if a == s && b == i then [f] + Channel(sys', a, b, false) else Channel(sys', a, b, false)
    ensures Channel(sys', a, b, true) ==
            if a == i && b == s then Channel(sys, a, b, true) + [ack] else Channel(sys, a, b, true)
  {
    hide FrameValid;
    hide Sel;
    SelHead(sys.hosts[i].incoming, a, b, false);
    SelHead(sys.hosts[i].incoming, a, b, true);
    SelSnoc(sys.hosts[i].outgoing, ack, a, b, false);
    SelSnoc(sys.hosts[i].outgoing, ack, a, b, true);
    if a == s && b == i {
      var inc, q := Sel(sys.hosts[i].incoming[1..], a, b, false), Sel(sys.ingress[b], a, b, false);
      var out := Sel(sys.hosts[a].outgoing, a, b, false);
      assert (([f] + inc) + q) + out == [f] + ((inc + q) + out);
    }
    if a == i && b == s {
      var inc, q, out :=
        Sel(sys.hosts[b].incoming, a, b, true), Sel(sys.ingress[b], a, b, true), Sel(sys.hosts[a].outgoing, a, b, true);
      assert (inc + q) + (out + [ack]) == ((inc + q) + out) + [ack];
    }
  }

  /** A corrupted frame belongs to no channel. */
  lemma DropChannels(sys: System, sys': System, i: nat, a: nat, b: nat, ack: bool)
    requires i < |sys.hosts| && a < |sys.hosts| && b < |sys.hosts| == |sys.ingress|
    requires sys.hosts[i].incoming != [] && !FrameValid(sys.hosts[i].incoming[0])
    requires sys' == sys.(hosts := sys.hosts[i := sys.hosts[i].(incoming := sys.hosts[i].incoming[1..])])
    ensures Channel(sys', a, b, ack) == Channel(sys, a, b, ack)
  {
    hide FrameValid;
    hide Sel;
    SelHead(sys.hosts[i].incoming, a, b, ack);
  }

  lemma FlowParts(cfg: Config, sys: System, s: nat, d: nat, fl: Flow.Flow, taken: seq<CString>, sent: seq<CString>)
    requires Sized(cfg, sys) && s < cfg.hosts && d < cfg.hosts && FlowAt(cfg, sys, s, d, fl, taken, sent)
    ensures Flow.FlowOk(cfg, fl, sys.hosts[s].send[d], Sel(sys.hosts[s].buffered, s, d, false), sys.hosts[d].recv[s],
                        Channel(sys, s, d, false), Channel(sys, d, s, true))
    ensures Disciplined(sys.hosts[s].send[d]) && Armed(sys.hosts[s], d) && CarriesAll(fl.gen, taken)
    ensures sent == taken + Pending(sys.hosts[s].cmds, d) && Reassembled(fl, sys.hosts[d], s)
  {}

  lemma FlowWhole(cfg: Config, sys: System, s: nat, d: nat, fl: Flow.Flow, taken: seq<CString>, sent: seq<CString>)
    requires Sized(cfg, sys) && s < cfg.hosts && d < cfg.hosts
    requires Flow.FlowOk(cfg, fl, sys.hosts[s].send[d], Sel(sys.hosts[s].buffered, s, d, false), sys.hosts[d].recv[s],
                         Channel(sys, s, d, false), Channel(sys, d, s, true))
    requires Disciplined(sys.hosts[s].send[d]) && Armed(sys.hosts[s], d) && CarriesAll(fl.gen, taken)
    requires sent == taken + Pending(sys.hosts[s].cmds, d) && Reassembled(fl, sys.hosts[d], s)
    ensures FlowAt(cfg, sys, s, d, fl, taken, sent)
  {}

  /** The step of the flow itself: the receiver takes in exactly the frame at the head of the channel. */
  lemma ReceiveOnFlow(cfg: Config, sys: System, sys': System, i: nat, s: nat, ack: Frame, fl: Flow.Flow,
                      taken: seq<CString>, sent: seq<CString>) returns (fl': Flow.Flow)
    requires ValidConfig(cfg) && Sized(cfg, sys) && Sized(cfg, sys') && i < cfg.hosts && s < cfg.hosts && s != i
    requires sys.hosts[i].incoming != []
    requires var h, f := sys.hosts[i], sys.hosts[i].incoming[0];
             && FrameValid(f) && f.src == s && f.dst == i && f.isAck == 0
             && |h.recv[s].window| == cfg.window
             && var p := Accept(cfg, h.recv[s], f);
                && sys' == sys.(hosts := sys.hosts[i :=
                                  h.(incoming := h.incoming[1..], recv := h.recv[s := p.(msgs := Drain(p.msgs).1)],
                                     outgoing := h.outgoing + [ack], printed := h.printed + Lines(s, Drain(p.msgs).0),
                                     mallocs := h.mallocs + 1)])
                && FrameValid(ack) && ack.src == i && ack.dst == s && ack.isAck == 1 && ack.seqNum == p.lfr
    requires FlowAt(cfg, sys, s, i, fl, taken, sent)
    ensures FlowAt(cfg, sys', s, i, fl', taken, sent)
    ensures fl'.gen == fl.gen && fl'.base == fl.base && fl'.top == fl.top && fl.next <= fl'.next
    ensures fl.flight != [] && fl'.flight == fl.flight[1..] && fl'.acks == fl.acks + [fl'.next]
    ensures fl.flight[0] < |fl.gen| && fl.gen[fl.flight[0]] == sys.hosts[i].incoming[0]
    ensures Flow.HasReceived(fl'.next, sys'.hosts[i].recv[s].window, fl.flight[0])
  {
    hide *;
    FlowSizes(cfg, sys, s, i);
    var h, f := sys.hosts[i], sys.hosts[i].incoming[0];
    var p := Accept(cfg, h.recv[s], f);
    FlowParts(cfg, sys, s, i, fl, taken, sent);
    ReceiveChannels(sys, sys', i, s, f, ack, s, i);
    ReceiveChannels(sys, sys', i, s, f, ack, i, s);
    fl' := ReceiveFlow(cfg, fl, sys.hosts[s].send[i], Sel(sys.hosts[s].buffered, s, i, false), h.recv[s],
                       Channel(sys, s, i, false), Channel(sys, i, s, true), ack, f, Channel(sys', s, i, false),
                       Drain(p.msgs).1);
    ReassembledNext(fl, h, s, p.msgs, fl'.next, sys'.hosts[i], fl');
    FlowWhole(cfg, sys', s, i, fl', taken, sent);
  }

  /** Any other flow. */
  lemma ReceiveElsewhere(cfg: Config, sys: System, sys': System, i: nat, s: nat, f: Frame, ack: Frame, lines: seq<Line>,
                         q: Receiving, a: nat, b: nat, sent: seq<CString>)
    requires Sized(cfg, sys) && Sized(cfg, sys') && i < cfg.hosts && s < cfg.hosts && s != i
    requires a < cfg.hosts && b < cfg.hosts && a != b && (a != s || b != i)
    requires sys.hosts[i].incoming != [] && f == sys.hosts[i].incoming[0]
    requires FrameValid(f) && f.src == s && f.dst == i && f.isAck == 0
    requires FrameValid(ack) && ack.src == i && ack.dst == s && ack.isAck == 1
    requires var h := sys.hosts[i];
             sys' == sys.(hosts := sys.hosts[i :=
                       h.(incoming := h.incoming[1..], recv := h.recv[s := q], outgoing := h.outgoing + [ack],
                          printed := h.printed + lines, mallocs := h.mallocs + 1)])
    requires forall l :: l in lines ==> l.src == s
    requires HasFlow(cfg, sys, a, b, sent)
    ensures HasFlow(cfg, sys', a, b, sent)
  {
    hide FrameValid;
    hide Sel;
    hide Channel;
    hide Texts;
    hide Drain;
    hide Pending;
    hide CarriesAll;
    hide Disciplined;
    hide Flow.FlowOk;
    ReceiveChannels(sys, sys', i, s, f, ack, a, b);
    ReceiveChannels(sys, sys', i, s, f, ack, b, a);
    TextsAppend(sys.hosts[i].printed, lines, a);
    if a != s {
      NoTexts(lines, s, a);
    }
    var fl, taken := SameFlow(cfg, sys, a, b, sent);
    assert Texts(sys.hosts[i].printed, a) + [] == Texts(sys.hosts[i].printed, a);
    assert FlowAt(cfg, sys', a, b, fl, taken, sent);
  }

  lemma {:induction false} NoTexts(lines: seq<Line>, src: int, s: int)
    requires (forall l :: l in lines ==> l.src == src) && s != src
    ensures Texts(lines, s) == []
  {
    if lines != [] {
      var n := |lines| - 1;
      assert lines[n] in lines;
      NoTexts(lines[..n], src, s);
    }
  }

  lemma LinesFrom(src: uint8, texts: seq<CString>)
    ensures forall l :: l in Lines(src, texts) ==> l.src == src
  {}

  lemma ApplyReceive(cfg: Config, sys: System, e: Event)
    requires Shaped(cfg, sys) && Enabled(cfg, sys, e) && e.Receive?
    ensures sys.phase == Receivers && e.host < |sys.hosts| == cfg.hosts && sys.hosts[e.host].incoming != []
    ensures WellFormed(cfg, sys.hosts[e.host])
    ensures forall s :: 0 <= s < |sys.hosts[e.host].recv| ==> |sys.hosts[e.host].recv[s].window| == cfg.window
    ensures Apply(cfg, sys, e) == sys.(hosts := sys.hosts[e.host := ReceiveOne(cfg, sys.hosts[e.host])])
  {
    hide ReceiveOne;
    hide FrameValid;
  }

  lemma KeepDropped(cfg: Config, sys: System, trace: seq<Event>, e: Event)
    requires Inv(cfg, sys, trace) && Shaped(cfg, sys) && Enabled(cfg, sys, e) && e.Receive?
    requires !FrameValid(sys.hosts[e.host].incoming[0])
    ensures Inv(cfg, Apply(cfg, sys, e), trace + [e])
  {
    hide *;
    ApplyReceive(cfg, sys, e);
    SizedInv(cfg, sys, trace);
    var i := e.host;
    var h := sys.hosts[i];
    HostsOkAt(cfg, sys, i);
    ReceiveInvalid(cfg, h);
    DroppedHost(cfg, h, i);
    HostsOkUpdate(cfg, sys, i, h.(incoming := h.incoming[1..]));
    var sys' := Apply(cfg, sys, e);
    forall a: nat, b: nat, ack | a < cfg.hosts && b < cfg.hosts
      ensures Thinned(Channel(sys, a, b, ack), Channel(sys', a, b, ack))
    {
      DropChannels(sys, sys', i, a, b, ack);
      ThinnedSelf(Channel(sys, a, b, ack));
    }
    forall k | 0 <= k < cfg.hosts ensures SameBooks(sys.hosts[k], sys'.hosts[k]) {
      SameBooksSelf(sys.hosts[k]);
    }
    KeepThinning(cfg, sys, sys', trace, e);
  }

  lemma ArrivingData(cfg: Config, f: Frame, i: int)
    requires Arriving(cfg, f, i, false)
    ensures f.dst == i && f.src != i && f.src < cfg.hosts && f.isAck == 0
  {}

  lemma KeepReceive(cfg: Config, sys: System, trace: seq<Event>, e: Event)
    requires ValidConfig(cfg) && Inv(cfg, sys, trace) && Shaped(cfg, sys) && Enabled(cfg, sys, e) && e.Receive?
    ensures Inv(cfg, Apply(cfg, sys, e), trace + [e])
  {
    hide *;
    ApplyReceive(cfg, sys, e);
    SizedInv(cfg, sys, trace);
    var i := e.host;
    var h := sys.hosts[i];
    HostsOkAt(cfg, sys, i);
    ReceiverFacts(cfg, h, i);
    var f := h.incoming[0];
    if !FrameValid(f) {
      KeepDropped(cfg, sys, trace, e);
    } else {
      ArrivingData(cfg, f, i);
      var s := f.src;
      var ack := ReceiveValid(cfg, h);
      var p := Accept(cfg, h.recv[s], f);
      AcceptWindow(cfg, h.recv[s], f);
      var q, lines := p.(msgs := Drain(p.msgs).1), Lines(s, Drain(p.msgs).0);
      LinesFrom(s, Drain(p.msgs).0);
      var r := ReceiveOne(cfg, h);
      ReceivedHost(cfg, h, i, r, s, q, ack, lines);
      HostsOkUpdate(cfg, sys, i, r);
      var sys' := Apply(cfg, sys, e);
      HostsOkAt(cfg, sys', i);
      forall a, b | 0 <= a < cfg.hosts && 0 <= b < cfg.hosts && a != b
        ensures HasFlow(cfg, sys', a, b, Commanded(trace + [e], a, b))
      {
        CommandedSame(trace, e, a, b);
        InvAt(cfg, sys, trace, a, b);
        var sent := Commanded(trace, a, b);
        if a == s && b == i {
          var fl, taken := SameFlow(cfg, sys, s, i, sent);
          var fl' := ReceiveOnFlow(cfg, sys, sys', i, s, ack, fl, taken, sent);
          FlowExists(cfg, sys', s, i, fl', taken, sent);
        } else {
          ReceiveElsewhere(cfg, sys, sys', i, s, f, ack, lines, q, a, b, sent);
        }
      }
      InvIntro(cfg, sys', trace + [e]);
    }
  }
}
